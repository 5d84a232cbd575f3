/**
 * The checkout page (frontend/src/app/checkout/page.jsx): the form's
 * defaults, the combined address line, the guards of "Place order", and the
 * order request it sends to createOrder. Removing the cart after success is
 * Storage.BrowserStorage.ClearCart.
 */
module Checkout {
  import opened Text
  import opened Seqs
  import opened Cart
  import Orders
  import Accounts

  /** The form fields; "" for an empty input. */
  datatype Form = Form(
    contactName: string,
    contactEmail: string,
    phone: string,
    country: string,
    line1: string,
    line2: string,
    city: string,
    state: string,
    pincode: string,
    paymentMode: string)

  /** `userEmail.split('@')[0]`: the text before the first '@'. */
  function LocalPart(email: string): (r: string)
    ensures forall i :: 0 <= i < |r| ==> r[i] != '@'
    ensures StartsWith(email, r)
    ensures |r| < |email| ==> email[|r|] == '@'
  {
    var at := IndexOf(email, "@");
    if at == -1 then
      assert forall i :: 0 <= i < |email| ==> email[i] != '@' by {
        forall i | 0 <= i < |email| ensures email[i] != '@' {
          assert email[i..i + 1] == [email[i]];
          assert !OccursAt(email, "@", i);
        }
      }
      email
    else
      assert forall i :: 0 <= i < at ==> email[i] != '@' by {
        forall i | 0 <= i < at ensures email[i] != '@' {
          assert email[i..i + 1] == [email[i]];
          assert !OccursAt(email, "@", i);
        }
      }
      email[..at]
  }

  /** The form as the page fills it in on load: the stored name or the email's local part, the email, India, UPI. */
  function InitialForm(username: string, userEmail: string): (f: Form)
    ensures f.contactName == OrElse(username, LocalPart(userEmail))
    ensures f.contactEmail == userEmail && f.country == "India" && f.paymentMode == "UPI"
    ensures f.phone == "" && f.line1 == "" && f.line2 == "" && f.city == "" && f.state == "" && f.pincode == ""
  {
    Form(OrElse(username, LocalPart(userEmail)), userEmail, "", "India", "", "", "", "", "", "UPI")
  }

  /** `[line1, line2, `${city} - ${pincode}`, state, country].filter(Boolean).join(', ')`. */
  function FullAddressString(f: Form): string
  {
    JoinNonEmpty([f.line1, f.line2, f.city + " - " + f.pincode, f.state, f.country], ", ")
  }

  /** The combined address is never empty: the "city - pincode" part always has its " - ". */
  lemma FullAddressNeverEmpty(f: Form)
    ensures FullAddressString(f) != ""
    ensures f.line1 != "" ==> StartsWith(FullAddressString(f), f.line1)
  {
    var parts := [f.line1, f.line2, f.city + " - " + f.pincode, f.state, f.country];
    assert parts[2] in parts && parts[2] != "";
    JoinNonEmptyEmptyIff(parts, ", ");
    if f.line1 != "" {
      assert NonEmpty(parts)[0] == f.line1;
      JoinStartsWithFirst(NonEmpty(parts), ", ");
    }
  }

  /**
   * For a form that passes the page's required-field check and keeps a
   * country, the address lists line 1, line 2 when given, "city - pincode",
   * state and country, in that order, separated by ", ".
   */
  lemma FullAddressOrder(f: Form)
    requires RequiredFilled(f) && f.country != ""
    ensures FullAddressString(f) ==
              f.line1 + ", " + (if f.line2 == "" then "" else f.line2 + ", ") +
              f.city + " - " + f.pincode + ", " + f.state + ", " + f.country
  {
    var l2 := if f.line2 == "" then "" else f.line2 + ", ";
    AddressAfterLine1(f);
    AddressAssoc(f.line1 + ", ", l2, f.city, f.pincode, f.state, f.country);
  }

  /** The address is line 1, the separator, and the remaining parts joined. */
  lemma AddressAfterLine1(f: Form)
    requires RequiredFilled(f) && f.country != ""
    ensures FullAddressString(f) ==
              f.line1 + ", " + ((if f.line2 == "" then "" else f.line2 + ", ") +
                                (f.city + " - " + f.pincode + ", " + (f.state + ", " + f.country)))
  {
    var tail := [f.city + " - " + f.pincode, f.state, f.country];
    var mid := if f.line2 == "" then [] else [f.line2];
    AddressKeptParts(f);
    JoinAddress(f.line1, mid, tail, ", ");
    var j := JoinThree(f.city + " - " + f.pincode, f.state, f.country, ", ");
  }

  /** Every part but an empty line 2 is kept, in order. */
  lemma AddressKeptParts(f: Form)
    requires RequiredFilled(f) && f.country != ""
    ensures FullAddressString(f) ==
              Join([f.line1] + (if f.line2 == "" then [] else [f.line2]) + [f.city + " - " + f.pincode, f.state, f.country], ", ")
  {
    var cp := f.city + " - " + f.pincode;
    assert cp != "" by { assert |cp| >= 3; }
    FivePartsKept(f.line1, f.line2, cp, f.state, f.country);
  }

  /** Five parts of which only the second may be empty. */
  lemma FivePartsKept(a: string, b: string, c: string, d: string, e: string)
    requires a != "" && c != "" && d != "" && e != ""
    ensures NonEmpty([a, b, c, d, e]) == [a] + (if b == "" then [] else [b]) + [c, d, e]
  {
    var tail := [c, d, e];
    assert NonEmpty(tail) == tail by {
      NonEmptyKeepsAll(tail);
    }
    assert [a, b, c, d, e] == [a, b] + tail;
    KeptAddressParts(a, b, tail);
  }
  /** Line 1 in front of an optional line 2 and a non-empty rest. */
  lemma JoinAddress(line1: string, mid: seq<string>, tail: seq<string>, sep: string)
    requires |mid| <= 1 && tail != []
    ensures Join([line1] + mid + tail, sep) ==
              line1 + sep + ((if mid == [] then "" else mid[0] + sep) + Join(tail, sep))
  {
    if mid == [] {
      assert [line1] + mid + tail == [line1] + tail;
      JoinCons(line1, tail, sep);
      assert "" + Join(tail, sep) == Join(tail, sep);
    } else {
      assert [line1] + mid + tail == [line1] + ([mid[0]] + tail);
      JoinCons(mid[0], tail, sep);
      JoinCons(line1, [mid[0]] + tail, sep);
    }
  }

  /** Three parts joined. */
  lemma JoinThree(a: string, b: string, c: string, sep: string) returns (j: string)
    ensures j == Join([a, b, c], sep) && j == a + sep + (b + sep + c)
  {
    assert [a, b, c] == [a] + [b, c];
    assert [b, c] == [b] + [c];
    JoinCons(a, [b, c], sep);
    JoinCons(b, [c], sep);
    j := Join([a, b, c], sep);
  }

  /** Regrouping the concatenations of the address. */
  lemma AddressAssoc(head: string, l2: string, city: string, pin: string, state: string, country: string)
    ensures head + (l2 + (city + " - " + pin + ", " + (state + ", " + country))) ==
            head + l2 + city + " - " + pin + ", " + state + ", " + country
  {
  }

  /** The first two address parts are kept or dropped on their own, ahead of the rest. */
  lemma KeptAddressParts(line1: string, line2: string, tail: seq<string>)
    ensures NonEmpty([line1, line2] + tail) ==
              (if line1 == "" then [] else [line1]) + (if line2 == "" then [] else [line2]) + NonEmpty(tail)
  {
    assert [line1, line2] == [line1] + [line2];
    NonEmptyAppend([line1, line2], tail);
    NonEmptyAppend([line1], [line2]);
    NonEmptySingle(line1);
    NonEmptySingle(line2);
  }

  /** name, email, phone, line 1, city, state and pincode are all filled in. */
  predicate RequiredFilled(f: Form)
  {
    f.contactName != "" && f.contactEmail != "" && f.phone != "" && f.line1 != "" && f.city != "" &&
    f.state != "" && f.pincode != ""
  }

  /** `cartItems.map(item => ({product_id: item.id, name, price, qty}))`. */
  function PayloadLines(items: seq<CartItem>): seq<Orders.LineItem>
  {
    seq(|items|, k requires 0 <= k < |items| =>
      Orders.LineItem(items[k].id, items[k].name, items[k].price, items[k].qty))
  }

  /** The request body sent to createOrder. */
  function Payload(userEmail: string, f: Form, items: seq<CartItem>): Orders.OrderRequest
  {
    Orders.OrderRequest(userEmail, Total(items), FullAddressString(f), f.contactName, f.contactEmail, f.phone,
                        f.country, f.line1, f.line2, f.city, f.state, f.pincode, f.paymentMode,
                        PayloadLines(items))
  }

  /** What "Place order" does: show a message, or send the request. */
  datatype Placement = Refused(message: string) | Send(request: Orders.OrderRequest)

  /** handlePlaceOrder's guards, in order: signed in, the required fields, a non-empty cart. */
  function PlaceOrder(loggedIn: bool, f: Form, userEmail: string, items: seq<CartItem>): Placement
  {
    if !loggedIn then Refused("You must be logged in to place an order.")
    else if !RequiredFilled(f) then Refused("Please fill in all required contact and address fields.")
    else if items == [] then Refused("Your cart is empty.")
    else Send(Payload(userEmail, f, items))
  }

  /**
   * A request is sent exactly when all three guards pass, and the first
   * failing guard decides the message.
   */
  lemma PlaceOrderGuards(loggedIn: bool, f: Form, userEmail: string, items: seq<CartItem>)
    ensures PlaceOrder(loggedIn, f, userEmail, items).Send? <==> loggedIn && RequiredFilled(f) && items != []
    ensures !loggedIn ==> PlaceOrder(loggedIn, f, userEmail, items) == Refused("You must be logged in to place an order.")
    ensures loggedIn && !RequiredFilled(f) ==>
              PlaceOrder(loggedIn, f, userEmail, items) == Refused("Please fill in all required contact and address fields.")
  {
  }

  function LinePrice(l: Orders.LineItem): int
  {
    l.price * l.qty
  }

  /** Summing the request's lines gives the same total as the cart. */
  lemma {:induction false} PayloadTotal(items: seq<CartItem>)
    ensures Sum(PayloadLines(items), LinePrice) == Total(items)
  {
    if items != [] {
      assert PayloadLines(items)[1..] == PayloadLines(items[1..]);
      PayloadTotal(items[1..]);
    }
  }

  /**
   * The request carries one line per cart line, in order, with the id as the
   * product id and name, price and quantity copied; its total is the cart's,
   * which is also the sum over its own lines; its address is never empty.
   */
  lemma PayloadMapsCart(loggedIn: bool, f: Form, userEmail: string, items: seq<CartItem>)
    requires PlaceOrder(loggedIn, f, userEmail, items).Send?
    ensures var req := PlaceOrder(loggedIn, f, userEmail, items).request;
            && |req.items| == |items|
            && (forall k :: 0 <= k < |items| ==>
                  req.items[k].productId == items[k].id && req.items[k].name == items[k].name &&
                  req.items[k].price == items[k].price && req.items[k].qty == items[k].qty)
            && req.total == Total(items) && req.total == Sum(req.items, LinePrice)
            && req.userEmail == userEmail && req.address != ""
  {
    PayloadTotal(items);
    FullAddressNeverEmpty(f);
  }

  /**
   * A request the page sends for a registered email passes createOrder's
   * checks: it is never refused as missing data or an unknown user.
   */
  lemma SentOrderAccepted(loggedIn: bool, f: Form, userEmail: string, items: seq<CartItem>,
                          users: seq<Accounts.User>, k: nat)
    requires PlaceOrder(loggedIn, f, userEmail, items).Send?
    requires k < |users| && users[k].email == userEmail && userEmail != ""
    ensures Orders.CreateCheck(users, PlaceOrder(loggedIn, f, userEmail, items).request).Ok?
  {
    var req := PlaceOrder(loggedIn, f, userEmail, items).request;
    assert |req.items| == |items|;
  }
}
