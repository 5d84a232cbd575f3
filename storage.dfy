/**
 * The browser's localStorage as the cart pages use it: the signed-in user's
 * token and email, and one JSON cart per lower-cased email. The methods are
 * the page handlers that read and write it (cart/page.jsx, search/page.jsx,
 * checkout/page.jsx); CartCount is the header badge (components/Header.jsx).
 * The "cart-updated" window event and the page state are left out.
 */
module Storage {
  import opened Text
  import opened Cart
  import opened Listings

  /** The line index addToCart finds with `findIndex`, by a loop over the stored lines. */
  method FindIndex(items: seq<CartItem>, id: nat) returns (idx: int)
    ensures idx == IndexOfId(items, id)
  {
    idx := -1;
    var i := 0;
    while i < |items|
      invariant 0 <= i <= |items|
      invariant forall k :: 0 <= k < i ==> items[k].id != id
    {
      if items[i].id == id {
        return i;
      }
      i := i + 1;
    }
  }

  class BrowserStorage {
    /** The stored token and email; "" when the key is absent. */
    var token: string
    var userEmail: string
    /** Every cart key present in storage, with its parsed list. */
    var carts: map<string, seq<CartItem>>

    constructor (token: string, userEmail: string, carts: map<string, seq<CartItem>>)
      ensures this.token == token && this.userEmail == userEmail && this.carts == carts
    {
      this.token := token;
      this.userEmail := userEmail;
      this.carts := carts;
    }

    /** `JSON.parse(localStorage.getItem(key) || "[]")`. */
    function Stored(key: string): seq<CartItem>
      reads this
    {
      if key in carts then carts[key] else []
    }

    /**
     * computeCartCount: 0 without a signed-in email, otherwise the sum of the
     * quantities in that user's cart.
     */
    function CartCount(): int
      reads this
    {
      if userEmail == "" then 0 else Count(Stored(CartKey(userEmail)))
    }

    /** The badge does not depend on the letter case the email was stored with. */
    lemma CartCountIgnoresCase(other: string)
      requires userEmail != "" && other != "" && ToLower(other) == ToLower(userEmail)
      ensures CartCount() == Count(Stored(CartKey(other)))
    {
      CartKeyIff(other, userEmail);
    }

    /** updateStorage: writes the list under the signed-in user's key; nothing without an email. */
    method UpdateStorage(newItems: seq<CartItem>)
      modifies this
      ensures userEmail == "" ==> carts == old(carts)
      ensures userEmail != "" ==> carts == old(carts)[CartKey(userEmail) := newItems]
      ensures token == old(token) && userEmail == old(userEmail)
    {
      if userEmail == "" {
        return;
      }
      carts := carts[CartKey(userEmail) := newItems];
    }

    /**
     * The cart page's load: without an email a login message and an empty
     * list; otherwise the in-stock lines, written back only when some line
     * was dropped.
     */
    method LoadCart() returns (items: seq<CartItem>, message: string)
      modifies this
      ensures token == old(token) && userEmail == old(userEmail)
      ensures userEmail == "" ==> items == [] && message == "Please login to view your cart." && carts == old(carts)
      ensures userEmail != "" ==> items == InStockOnly(old(Stored(CartKey(userEmail))))
      ensures userEmail != "" && |items| < |old(Stored(CartKey(userEmail)))| ==>
                message == "Some out-of-stock items were removed from your cart" &&
                carts == old(carts)[CartKey(userEmail) := items]
      ensures userEmail != "" && |items| == |old(Stored(CartKey(userEmail)))| ==>
                message == "" && carts == old(carts)
    {
      if userEmail == "" {
        return [], "Please login to view your cart.";
      }
      var stored := Stored(CartKey(userEmail));
      items := InStockOnly(stored);
      message := "";
      if |items| < |stored| {
        message := "Some out-of-stock items were removed from your cart";
        UpdateStorage(items);
      }
    }

    /** changeQty on the page's list, then updateStorage. */
    method ChangeQuantity(items: seq<CartItem>, id: nat, delta: int) returns (updated: seq<CartItem>)
      modifies this
      ensures updated == ChangeQty(items, id, delta)
      ensures userEmail == "" ==> carts == old(carts)
      ensures userEmail != "" ==> carts == old(carts)[CartKey(userEmail) := updated]
      ensures token == old(token) && userEmail == old(userEmail)
    {
      updated := ChangeQty(items, id, delta);
      UpdateStorage(updated);
    }

    /** removeItem on the page's list, then updateStorage. */
    method Remove(items: seq<CartItem>, id: nat) returns (updated: seq<CartItem>)
      modifies this
      ensures updated == RemoveItem(items, id)
      ensures userEmail == "" ==> carts == old(carts)
      ensures userEmail != "" ==> carts == old(carts)[CartKey(userEmail) := updated]
      ensures token == old(token) && userEmail == old(userEmail)
    {
      updated := RemoveItem(items, id);
      UpdateStorage(updated);
    }

    /**
     * The search page's addToCart: refused without a token or an email;
     * otherwise the stored line for the product is incremented in place, or a
     * new line pushed, and the list written back. The badge grows by one.
     */
    method AddToCart(p: Listing) returns (added: bool)
      modifies this
      ensures added <==> old(token) != "" && old(userEmail) != ""
      ensures !added ==> carts == old(carts)
      ensures added ==> carts == old(carts)[CartKey(userEmail) := AddOrIncrement(old(Stored(CartKey(userEmail))), p)]
      ensures added ==> CartCount() == old(CartCount()) + 1
      ensures token == old(token) && userEmail == old(userEmail)
    {
      if token == "" || userEmail == "" {
        return false;
      }
      var key := CartKey(userEmail);
      var existing := Stored(key);
      var idx := FindIndex(existing, p.id);
      if idx >= 0 {
        existing := existing[idx := existing[idx].(qty := existing[idx].qty + 1)];
      } else {
        existing := existing + [NewLine(p)];
      }
      AddTotals(Stored(key), p);
      carts := carts[key := existing];
      added := true;
    }

    /** After an order is placed, checkout removes the signed-in user's cart key. */
    method ClearCart()
      modifies this
      ensures userEmail == "" ==> carts == old(carts)
      ensures userEmail != "" ==> carts == old(carts) - {CartKey(userEmail)}
      ensures userEmail != "" ==> Stored(CartKey(userEmail)) == [] && CartCount() == 0
      ensures token == old(token) && userEmail == old(userEmail)
    {
      if userEmail != "" {
        carts := carts - {CartKey(userEmail)};
      }
    }
  }
}
