/**
 * The shopping cart the pages keep in the browser: a list of lines keyed by
 * product id (frontend/src/app/cart/page.jsx, search/page.jsx,
 * checkout/page.jsx and components/Header.jsx all read and write it). This
 * module holds the list operations; Storage holds the per-user storage.
 */
module Cart {
  import opened Text
  import opened Seqs
  import opened Listings

  /** The `stock` a cart line may carry: absent, a number or a boolean. */
  datatype Stock = NoStock | StockCount(n: int) | StockFlag(b: bool)

  datatype CartItem = CartItem(id: nat, name: string, price: int, image: string, qty: int, stock: Stock)

  /** "cartItems:" followed by the lower-cased email: one cart per user. */
  function CartKey(email: string): (key: string)
    ensures StartsWith(key, "cartItems:") && key[10..] == ToLower(email)
  {
    "cartItems:" + ToLower(email)
  }

  /** Two emails share a cart exactly when they are equal ignoring the case of their letters. */
  lemma CartKeyIff(a: string, b: string)
    ensures CartKey(a) == CartKey(b) <==> ToLower(a) == ToLower(b)
  {
    if CartKey(a) == CartKey(b) {
      assert CartKey(a)[10..] == CartKey(b)[10..];
    }
  }

  /** Emails that differ only in letter case map to the same cart. */
  lemma CartKeyIgnoresCase(email: string)
    ensures CartKey(ToLower(email)) == CartKey(email)
  {
    ToLowerIdempotent(email);
  }

  // ---------------------------------------------------------------- cart page

  /** `item.stock !== 0 && item.stock !== false`: a line without a stock field stays. */
  predicate InStock(it: CartItem)
  {
    it.stock != StockCount(0) && it.stock != StockFlag(false)
  }

  /** The filter the cart page applies when it loads. */
  function InStockOnly(items: seq<CartItem>): seq<CartItem>
  {
    Filter(items, InStock)
  }

  /**
   * Loading keeps exactly the in-stock lines in their order; the list is
   * shorter (and storage rewritten) exactly when some line was out of stock.
   */
  lemma InStockOnlyKeepsOrder(items: seq<CartItem>)
    ensures IsSubsequence(InStockOnly(items), items)
    ensures forall it :: it in InStockOnly(items) <==> it in items && InStock(it)
    ensures |InStockOnly(items)| < |items| <==> exists k :: 0 <= k < |items| && !InStock(items[k])
  {
    FilterIsSubsequence(items, InStock);
    FilterLength(items, InStock);
  }

  /** `Math.max(1, qty + delta)`. */
  function Bumped(qty: int, delta: int): (r: int)
    ensures r >= 1 && r >= qty + delta
    ensures qty + delta >= 1 ==> r == qty + delta
  {
    if qty + delta > 1 then qty + delta else 1
  }

  function BumpAll(items: seq<CartItem>, id: nat, delta: int): seq<CartItem>
  {
    seq(|items|, k requires 0 <= k < |items| =>
      if items[k].id == id then items[k].(qty := Bumped(items[k].qty, delta)) else items[k])
  }

  function Positive(it: CartItem): bool
  {
    it.qty > 0
  }

  /** changeQty: the lines with that id get max(1, qty + delta), then lines with qty <= 0 are dropped. */
  function ChangeQty(items: seq<CartItem>, id: nat, delta: int): seq<CartItem>
  {
    Filter(BumpAll(items, id, delta), Positive)
  }

  /**
   * A changed line never drops below 1; when every quantity was already at
   * least 1, the list keeps its length and its order of ids, and only the
   * lines with that id change.
   */
  lemma ChangeQtyEffect(items: seq<CartItem>, id: nat, delta: int)
    ensures forall it :: it in ChangeQty(items, id, delta) && it.id == id ==> it.qty >= 1
    ensures forall it :: it in ChangeQty(items, id, delta) ==> it.qty >= 1 || it.id != id
    ensures (forall k :: 0 <= k < |items| ==> items[k].qty >= 1) ==>
              |ChangeQty(items, id, delta)| == |items| &&
              forall k :: 0 <= k < |items| ==>
                ChangeQty(items, id, delta)[k].id == items[k].id &&
                ChangeQty(items, id, delta)[k] ==
                  (if items[k].id == id then items[k].(qty := Bumped(items[k].qty, delta)) else items[k])
  {
    var b := BumpAll(items, id, delta);
    forall it | it in ChangeQty(items, id, delta) && it.id == id
      ensures it.qty >= 1
    {
      var k :| 0 <= k < |b| && b[k] == it;
    }
    if forall k :: 0 <= k < |items| ==> items[k].qty >= 1 {
      assert forall k :: 0 <= k < |b| ==> Positive(b[k]);
    }
  }

  /** removeItem: drop every line with that id. */
  function RemoveItem(items: seq<CartItem>, id: nat): seq<CartItem>
  {
    Filter(items, (it: CartItem) => it.id != id)
  }

  /** No line with the id is left; every other line stays, in its order. */
  lemma RemoveItemEffect(items: seq<CartItem>, id: nat)
    ensures forall it :: it in RemoveItem(items, id) ==> it.id != id
    ensures forall it :: it in items && it.id != id ==> it in RemoveItem(items, id)
    ensures IsSubsequence(RemoveItem(items, id), items)
    ensures (forall k :: 0 <= k < |items| ==> items[k].id != id) ==> RemoveItem(items, id) == items
  {
    FilterIsSubsequence(items, (it: CartItem) => it.id != id);
  }

  function LineTotal(it: CartItem): int
  {
    it.price * it.qty
  }

  /** `items.reduce((sum, i) => sum + i.price * i.qty, 0)`, the cart page's total and checkout's cartTotal. */
  function Total(items: seq<CartItem>): int
  {
    Sum(items, LineTotal)
  }

  function Quantity(it: CartItem): int
  {
    it.qty
  }

  /** `items.reduce((sum, i) => sum + (i.qty || 0), 0)`: the header badge. */
  function Count(items: seq<CartItem>): int
  {
    Sum(items, Quantity)
  }

  /** Removing a line takes its price times quantity out of the total. */
  lemma {:induction false} RemoveItemTotal(items: seq<CartItem>, id: nat)
    ensures Total(RemoveItem(items, id)) ==
              Total(items) - Sum(Filter(items, (it: CartItem) => it.id == id), LineTotal)
  {
    if items != [] {
      RemoveItemTotal(items[1..], id);
    }
  }

  /** The cart page's Buy Now: a message, or the checkout page for the first line. */
  datatype BuyNow = Message(text: string) | GoCheckout(productId: nat, qty: int)

  /** handleBuyNow: the login check first, then the empty cart, then the first line. */
  function HandleBuyNow(token: string, email: string, items: seq<CartItem>): (r: BuyNow)
    ensures r.GoCheckout? <==> token != "" && email != "" && items != []
    ensures r.GoCheckout? ==> r.productId == items[0].id && r.qty == items[0].qty
    ensures (token == "" || email == "") ==> r == Message("Please login to proceed to checkout.")
  {
    if token == "" || email == "" then Message("Please login to proceed to checkout.")
    else if items == [] then Message("Your cart is empty.")
    else GoCheckout(items[0].id, items[0].qty)
  }

  // ---------------------------------------------------------------- add to cart (search page)

  /** `existing.findIndex((i) => i.id === id)`. */
  function IndexOfId(items: seq<CartItem>, id: nat): (r: int)
    ensures -1 <= r < |items|
    ensures r == -1 <==> forall k :: 0 <= k < |items| ==> items[k].id != id
    ensures r >= 0 ==> items[r].id == id && forall k :: 0 <= k < r ==> items[k].id != id
  {
    if items == [] then -1
    else if items[0].id == id then 0
    else
      var r := IndexOfId(items[1..], id);
      if r == -1 then -1 else r + 1
  }

  /** The line addToCart pushes for a product not yet in the cart. */
  function NewLine(p: Listing): CartItem
  {
    CartItem(p.id, p.name, p.price, Picture(p), 1, NoStock)
  }

  /** addToCart on the stored list: increment the product's line, or append a new line with quantity 1. */
  function AddOrIncrement(items: seq<CartItem>, p: Listing): seq<CartItem>
  {
    var k := IndexOfId(items, p.id);
    if k >= 0 then items[k := items[k].(qty := items[k].qty + 1)] else items + [NewLine(p)]
  }

  predicate DistinctIds(items: seq<CartItem>)
  {
    forall j, k :: 0 <= j < k < |items| ==> items[j].id != items[k].id
  }

  /**
   * A product already in the cart has its line's quantity raised by one and
   * nothing else changes; a new product is appended with quantity 1.
   */
  lemma AddOrIncrementEffect(items: seq<CartItem>, p: Listing)
    ensures (exists k :: 0 <= k < |items| && items[k].id == p.id) ==>
              |AddOrIncrement(items, p)| == |items| &&
              forall k :: 0 <= k < |items| ==>
                AddOrIncrement(items, p)[k] ==
                  (if k == IndexOfId(items, p.id) then items[k].(qty := items[k].qty + 1) else items[k])
    ensures (forall k :: 0 <= k < |items| ==> items[k].id != p.id) ==>
              AddOrIncrement(items, p) == items + [CartItem(p.id, p.name, p.price, Picture(p), 1, NoStock)]
  {
  }

  /** A cart whose ids are distinct keeps them distinct, and then the product has exactly one line. */
  lemma AddKeepsIdsDistinct(items: seq<CartItem>, p: Listing)
    requires DistinctIds(items)
    ensures DistinctIds(AddOrIncrement(items, p))
    ensures exists k :: 0 <= k < |AddOrIncrement(items, p)| && AddOrIncrement(items, p)[k].id == p.id
  {
    var r := AddOrIncrement(items, p);
    if IndexOfId(items, p.id) < 0 {
      assert r[|items|].id == p.id;
    } else {
      assert r[IndexOfId(items, p.id)].id == p.id;
    }
  }

  /** Adding raises the badge count by one and the total by the price of the line that grew. */
  lemma AddTotals(items: seq<CartItem>, p: Listing)
    ensures Count(AddOrIncrement(items, p)) == Count(items) + 1
    ensures IndexOfId(items, p.id) >= 0 ==>
              Total(AddOrIncrement(items, p)) == Total(items) + items[IndexOfId(items, p.id)].price
    ensures IndexOfId(items, p.id) < 0 ==> Total(AddOrIncrement(items, p)) == Total(items) + p.price
  {
    var k := IndexOfId(items, p.id);
    if k >= 0 {
      var x := items[k].(qty := items[k].qty + 1);
      SumUpdate(items, k, x, Quantity);
      SumUpdate(items, k, x, LineTotal);
      assert LineTotal(x) == LineTotal(items[k]) + items[k].price;
    } else {
      SumAppend(items, [NewLine(p)], Quantity);
      SumAppend(items, [NewLine(p)], LineTotal);
    }
  }
}
