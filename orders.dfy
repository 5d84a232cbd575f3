/**
 * The order lifecycle of backend/controllers/ordersController.js: checkout
 * inserts an order and its item rows, a customer lists their orders, an
 * administrator overwrites the status, the owner downloads an invoice and
 * reviews the items of a delivered order.
 *
 * The orders, order_items and reviews tables are sequences in the class
 * OrderBook. jwt.verify is the parameter `verify`, the clock is `now`, the
 * users table is passed in as a sequence of Accounts.User. Emails are a
 * side effect the model leaves out; UpdateStatus only reports whether the
 * delivery email would be attempted.
 */
module Orders {
  import opened Text
  import opened Http
  import opened Seqs
  import Accounts

  /** One cart line of the checkout request body. */
  datatype LineItem = LineItem(productId: int, name: string, price: int, qty: int)

  /** The checkout request body; "" stands for a missing or empty field. */
  datatype OrderRequest = OrderRequest(
    userEmail: string,
    total: int,
    address: string,
    contactName: string,
    contactEmail: string,
    phone: string,
    country: string,
    line1: string,
    line2: string,
    city: string,
    state: string,
    pincode: string,
    paymentMode: string,
    items: seq<LineItem>)

  /** A row of the orders table; nullable columns are options. */
  datatype Order = Order(
    id: nat,
    userId: nat,
    contactName: Option<string>,
    contactEmail: string,
    phone: Option<string>,
    country: string,
    line1: Option<string>,
    line2: Option<string>,
    city: Option<string>,
    state: Option<string>,
    pincode: Option<string>,
    address: Option<string>,
    total: int,
    paymentMode: string,
    status: string,
    createdAt: int)

  datatype OrderItem = OrderItem(orderId: nat, productId: int, name: string, price: int, qty: int)

  datatype Review = Review(orderId: nat, itemId: int, userEmail: string, rating: int, comment: string, createdAt: int)

  /** An order as the listing endpoints send it, with its item rows attached. */
  datatype OrderView = OrderView(order: Order, items: seq<OrderItem>)

  /** What jwt.verify makes of a token: a rejection (it throws), or the claims, whose email may be absent. */
  datatype Claims = Rejected | Claims(email: Option<string>)

  /** `authHeader.replace('Bearer ', '')`. */
  function BearerToken(header: string): string
  {
    ReplaceFirst(header, "Bearer ", "")
  }

  // ---------------------------------------------------------------- createOrder

  /** The row createOrder inserts, with the source's defaults for missing fields. */
  function NewOrder(id: nat, userId: nat, req: OrderRequest, now: int): Order
  {
    Order(id, userId, OrNull(req.contactName), OrElse(req.contactEmail, req.userEmail), OrNull(req.phone),
          OrElse(req.country, "India"), OrNull(req.line1), OrNull(req.line2), OrNull(req.city),
          OrNull(req.state), OrNull(req.pincode), OrNull(req.address), req.total,
          OrElse(req.paymentMode, "UPI"), "Placed", now)
  }

  /** A new order is Placed, keeps the submitted total, and never has an empty contact email, country or payment mode. */
  lemma NewOrderDefaults(id: nat, userId: nat, req: OrderRequest, now: int)
    requires req.userEmail != ""
    ensures NewOrder(id, userId, req, now).status == "Placed"
    ensures NewOrder(id, userId, req, now).total == req.total
    ensures NewOrder(id, userId, req, now).contactEmail in {req.contactEmail, req.userEmail}
    ensures NewOrder(id, userId, req, now).contactEmail != ""
    ensures NewOrder(id, userId, req, now).country != "" && NewOrder(id, userId, req, now).paymentMode != ""
    ensures req.paymentMode == "" ==> NewOrder(id, userId, req, now).paymentMode == "UPI"
    ensures req.country == "" ==> NewOrder(id, userId, req, now).country == "India"
  {
  }

  function ItemRow(orderId: nat, line: LineItem): OrderItem
  {
    OrderItem(orderId, line.productId, line.name, line.price, line.qty)
  }

  /** One item row per submitted line, in order, all under `orderId`. */
  function ItemRows(orderId: nat, lines: seq<LineItem>): seq<OrderItem>
  {
    seq(|lines|, k requires 0 <= k < |lines| => ItemRow(orderId, lines[k]))
  }

  /** `SELECT * FROM order_items WHERE order_id = ?`. */
  function ItemsOf(items: seq<OrderItem>, orderId: nat): seq<OrderItem>
  {
    Filter(items, (it: OrderItem) => it.orderId == orderId)
  }

  /** The checks before the insert; Ok carries the id of the user the order goes to. */
  function CreateCheck(users: seq<Accounts.User>, req: OrderRequest): (r: Reply<nat>)
    ensures r.Ok? <==> req.userEmail != "" && req.items != [] && Accounts.FindByEmail(users, req.userEmail).Some?
    ensures r.Ok? ==> exists k :: 0 <= k < |users| && users[k].id == r.value && users[k].email == req.userEmail
  {
    if req.userEmail == "" || req.items == [] then Error(400, "Missing order data.")
    else match Accounts.FindByEmail(users, req.userEmail)
      case None => Error(404, "User not found")
      case Some(u) => Ok(u.id)
  }

  // ---------------------------------------------------------------- listings

  function OrdersOf(views: seq<OrderView>): seq<Order>
  {
    seq(|views|, k requires 0 <= k < |views| => views[k].order)
  }

  function CreatedAt(o: Order): int
  {
    o.createdAt
  }

  /** Who getUserOrders serves: the checks on the header and the token, then the user's id. */
  function ListCaller(users: seq<Accounts.User>, header: string, verify: string -> Claims): (r: Reply<nat>)
    ensures r.Ok? ==> exists k :: 0 <= k < |users| && users[k].id == r.value &&
                        verify(BearerToken(header)) == Claims(Some(users[k].email))
  {
    if header == "" then Error(401, "No authorization header")
    else if BearerToken(header) == "" then Error(401, "No token provided")
    else match verify(BearerToken(header))
      case Rejected => Error(500, "Failed to fetch orders")
      case Claims(email) =>
        if email.None? || email.value == "" then Error(401, "Invalid token - no email found")
        else match Accounts.FindByEmail(users, email.value)
          case None => Error(404, "User not found")
          case Some(u) => Ok(u.id)
  }

  // ---------------------------------------------------------------- updateOrderStatus

  /** `UPDATE orders SET status = ? WHERE id = ?`. */
  function SetStatus(orders: seq<Order>, id: nat, status: string): seq<Order>
  {
    seq(|orders|, k requires 0 <= k < |orders| =>
      if orders[k].id == id then orders[k].(status := status) else orders[k])
  }

  predicate HasOrder(orders: seq<Order>, id: nat)
  {
    exists k :: 0 <= k < |orders| && orders[k].id == id
  }

  /** The status update touches only the status of the rows with that id, and sets it to any value given. */
  lemma SetStatusEffect(orders: seq<Order>, id: nat, status: string)
    ensures |SetStatus(orders, id, status)| == |orders|
    ensures forall k :: 0 <= k < |orders| ==>
              SetStatus(orders, id, status)[k].(status := orders[k].status) == orders[k]
    ensures forall k :: 0 <= k < |orders| ==>
              SetStatus(orders, id, status)[k].status == (if orders[k].id == id then status else orders[k].status)
  {
  }

  /** The reply to a successful status update. */
  datatype StatusUpdate = StatusUpdate(message: string, deliveryEmail: bool)

  // ---------------------------------------------------------------- generateInvoice

  /** `'INV-' + String(orderId).padStart(6, '0')`. */
  function InvoiceNumber(id: nat): string
  {
    "INV-" + PadStart(DecimalString(id), 6, '0')
  }

  function Pow10(k: nat): nat
  {
    if k == 0 then 1 else 10 * Pow10(k - 1)
  }

  lemma {:induction false} DecimalStringLength(n: nat, k: nat)
    requires n < Pow10(k)
    ensures |DecimalString(n)| <= k || (n == 0 && k == 0)
  {
    if k > 0 && n >= 10 {
      DecimalStringLength(n / 10, k - 1);
    }
  }

  /** Zero padding keeps a digit string all digits and keeps its value. */
  lemma PaddedDigits(d: string, width: nat)
    requires forall i :: 0 <= i < |d| ==> IsDigit(d[i])
    ensures forall i :: 0 <= i < |PadStart(d, width, '0')| ==> IsDigit(PadStart(d, width, '0')[i])
    ensures ParseDecimal(PadStart(d, width, '0')) == ParseDecimal(d)
  {
    var p := PadStart(d, width, '0');
    var z := |p| - |d|;
    assert p[z..] == d;
    forall i | 0 <= i < |p|
      ensures IsDigit(p[i])
    {
      if i >= z {
        assert p[i] == p[z..][i - z];
      }
    }
    ParseDecimalLeadingZeros(p, z);
  }

  /**
   * The invoice number is "INV-" and at least six digits, exactly six below a
   * million, and the digits read back as the order id.
   */
  lemma InvoiceNumberReadsBack(id: nat)
    ensures StartsWith(InvoiceNumber(id), "INV-") && |InvoiceNumber(id)| >= 10
    ensures forall i :: 4 <= i < |InvoiceNumber(id)| ==> IsDigit(InvoiceNumber(id)[i])
    ensures ParseDecimal(InvoiceNumber(id)[4..]) == id
    ensures id < 1000000 ==> |InvoiceNumber(id)| == 10
  {
    var d := DecimalString(id);
    var p := PadStart(d, 6, '0');
    assert InvoiceNumber(id)[4..] == p;
    PaddedDigits(d, 6);
    ParseDecimalString(id);
    forall i | 4 <= i < |InvoiceNumber(id)|
      ensures IsDigit(InvoiceNumber(id)[i])
    {
      assert InvoiceNumber(id)[i] == p[i - 4];
    }
    if id < 1000000 {
      assert Pow10(6) == 1000000;
      DecimalStringLength(id, 6);
    }
  }

  /** Different orders never share an invoice number. */
  lemma InvoiceNumberInjective(a: nat, b: nat)
    requires InvoiceNumber(a) == InvoiceNumber(b)
    ensures a == b
  {
    InvoiceNumberReadsBack(a);
    InvoiceNumberReadsBack(b);
  }

  /** `parseInt(item.qty) || 1`: a zero quantity is printed as 1. */
  function InvoiceQty(qty: int): (r: int)
    ensures r != 0
    ensures qty != 0 ==> r == qty
  {
    if qty == 0 then 1 else qty
  }

  datatype InvoiceLine = InvoiceLine(name: string, qty: int, price: int, lineTotal: int)

  /** A printed invoice row: the quantity rule, and the line total as quantity times price. */
  function LineFor(it: OrderItem): (l: InvoiceLine)
    ensures l.name == it.name && l.price == it.price
    ensures l.qty != 0 && l.lineTotal == l.qty * l.price
    ensures it.qty != 0 ==> l.lineTotal == it.qty * it.price
    ensures it.qty == 0 ==> l.lineTotal == it.price
  {
    var q := InvoiceQty(it.qty);
    InvoiceLine(it.name, q, it.price, q * it.price)
  }

  /** The loop that prints the item rows: one invoice line per row, in order. */
  method InvoiceLines(rows: seq<OrderItem>) returns (lines: seq<InvoiceLine>)
    ensures |lines| == |rows|
    ensures forall k :: 0 <= k < |rows| ==> lines[k] == LineFor(rows[k])
  {
    lines := [];
    for i := 0 to |rows|
      invariant |lines| == i
      invariant forall k :: 0 <= k < i ==> lines[k] == LineFor(rows[k])
    {
      lines := lines + [LineFor(rows[i])];
    }
  }

  /** The printed address: the stored one, else the non-empty parts joined with ", ". */
  function InvoiceAddress(o: Order): string
  {
    if o.address.Some? && o.address.value != "" then o.address.value
    else JoinNonEmpty([OrEmpty(o.line1), OrEmpty(o.line2), Trim(OrEmpty(o.city) + " - " + OrEmpty(o.pincode)),
                       OrEmpty(o.state), OrElse(o.country, "India")], ", ")
  }

  /** The invoice always has an address to print: the country part is never empty. */
  lemma InvoiceAddressNonEmpty(o: Order)
    ensures InvoiceAddress(o) != ""
  {
    var parts := [OrEmpty(o.line1), OrEmpty(o.line2), Trim(OrEmpty(o.city) + " - " + OrEmpty(o.pincode)),
                  OrEmpty(o.state), OrElse(o.country, "India")];
    assert parts[4] in parts && parts[4] != "";
    JoinNonEmptyEmptyIff(parts, ", ");
  }

  datatype Invoice = Invoice(
    number: string,
    orderId: nat,
    status: string,
    billName: string,
    billEmail: string,
    address: string,
    phone: Option<string>,
    lines: seq<InvoiceLine>,
    total: int,
    paymentMode: string)

  /** The email the token claims, if any. */
  function ClaimedEmail(c: Claims): Option<string>
  {
    if c.Claims? then c.email else None
  }

  /** `... LEFT JOIN users u ON o.user_id = u.id WHERE o.id = ? AND u.email = ?`, first row. */
  function OwnedOrder(users: seq<Accounts.User>, orders: seq<Order>, orderId: nat, email: Option<string>)
    : (r: Option<(Order, Accounts.User)>)
    ensures r.Some? ==> r.value.0 in orders && r.value.1 in users && r.value.0.id == orderId &&
                        r.value.1.id == r.value.0.userId && email == Some(r.value.1.email)
    ensures r.None? && email.Some? ==>
              forall k, m ::
                (0 <= k < |orders| && 0 <= m < |users| && orders[k].id == orderId && users[m].id == orders[k].userId)
                ==> users[m].email != email.value
  {
    if email.None? then None
    else match FirstWhere(orders, (o: Order) => o.id == orderId && HasOwner(users, o, email.value))
      case None => None
      case Some(o) =>
        match FirstWhere(users, (u: Accounts.User) => u.id == o.userId && u.email == email.value)
          case None => None
          case Some(u) => Some((o, u))
  }

  predicate HasOwner(users: seq<Accounts.User>, o: Order, email: string)
  {
    exists m :: 0 <= m < |users| && users[m].id == o.userId && users[m].email == email
  }

  /** generateInvoice's checks; Ok carries the order row and its owner. */
  function InvoiceCaller(users: seq<Accounts.User>, orders: seq<Order>, orderId: nat, header: string,
                         verify: string -> Claims): Reply<(Order, Accounts.User)>
  {
    if header == "" then Error(401, "No authorization header")
    else if verify(BearerToken(header)).Rejected? then Error(500, "Failed to generate invoice")
    else match OwnedOrder(users, orders, orderId, verify(BearerToken(header)).email)
      case None => Error(404, "Order not found or unauthorized")
      case Some(p) => Ok(p)
  }

  /** An invoice is produced only for the order's owner: the token's email is the email of the user who placed it. */
  lemma InvoiceOnlyForOwner(users: seq<Accounts.User>, orders: seq<Order>, orderId: nat, header: string,
                            verify: string -> Claims)
    requires InvoiceCaller(users, orders, orderId, header, verify).Ok?
    ensures header != ""
    ensures exists k, m :: 0 <= k < |orders| && 0 <= m < |users| && orders[k].id == orderId &&
                           users[m].id == orders[k].userId &&
                           verify(BearerToken(header)) == Claims(Some(users[m].email))
  {
    var p := InvoiceCaller(users, orders, orderId, header, verify).value;
    var k :| 0 <= k < |orders| && orders[k] == p.0;
    var m :| 0 <= m < |users| && users[m] == p.1;
  }

  // ---------------------------------------------------------------- submitReview

  /** The token's user owns a Delivered order with that id. */
  predicate DeliveredOwned(users: seq<Accounts.User>, orders: seq<Order>, orderId: nat, email: Option<string>)
  {
    email.Some? &&
    exists k :: 0 <= k < |orders| && orders[k].id == orderId && orders[k].status == "Delivered" &&
                HasOwner(users, orders[k], email.value)
  }

  predicate Reviewed(reviews: seq<Review>, orderId: nat, itemId: int, email: string)
  {
    exists k :: 0 <= k < |reviews| &&
                reviews[k].orderId == orderId && reviews[k].itemId == itemId && reviews[k].userEmail == email
  }

  /** submitReview's checks in the source's order; Ok carries the row it inserts. */
  function ReviewReply(users: seq<Accounts.User>, orders: seq<Order>, reviews: seq<Review>, orderId: nat,
                       itemId: int, rating: int, comment: string, header: string, verify: string -> Claims,
                       now: int): Reply<Review>
  {
    if header == "" then Error(401, "No authorization header")
    else if verify(BearerToken(header)).Rejected? then Error(500, "Failed to submit review")
    else if rating < 1 || rating > 5 then Error(400, "Rating must be between 1 and 5")
    else if !DeliveredOwned(users, orders, orderId, verify(BearerToken(header)).email)
    then Error(404, "Order not found or not yet delivered")
    else if Reviewed(reviews, orderId, itemId, verify(BearerToken(header)).email.value)
    then Error(400, "You have already reviewed this item")
    else Ok(Review(orderId, itemId, verify(BearerToken(header)).email.value, rating, comment, now))
  }

  /**
   * An accepted review has a rating from 1 to 5, is written by the owner of a
   * Delivered order with that id, and is the first for its (order, item, user).
   */
  lemma ReviewAccepted(users: seq<Accounts.User>, orders: seq<Order>, reviews: seq<Review>, orderId: nat,
                       itemId: int, rating: int, comment: string, header: string, verify: string -> Claims,
                       now: int)
    requires ReviewReply(users, orders, reviews, orderId, itemId, rating, comment, header, verify, now).Ok?
    ensures var rv := ReviewReply(users, orders, reviews, orderId, itemId, rating, comment, header, verify, now).value;
            && 1 <= rv.rating <= 5 && rv.rating == rating
            && rv.orderId == orderId && rv.itemId == itemId && rv.comment == comment && rv.createdAt == now
            && verify(BearerToken(header)) == Claims(Some(rv.userEmail))
            && (exists k :: 0 <= k < |orders| && orders[k].id == orderId && orders[k].status == "Delivered" &&
                            HasOwner(users, orders[k], rv.userEmail))
            && !Reviewed(reviews, orderId, itemId, rv.userEmail)
  {
  }

  /** Once a review is stored, a second one for the same (order, item, user) is refused, whatever its rating. */
  lemma SecondReviewRefused(users: seq<Accounts.User>, orders: seq<Order>, reviews: seq<Review>, orderId: nat,
                            itemId: int, rating: int, comment: string, header: string, verify: string -> Claims,
                            now: int, rating2: int, comment2: string, later: int)
    requires ReviewReply(users, orders, reviews, orderId, itemId, rating, comment, header, verify, now).Ok?
    requires 1 <= rating2 <= 5
    ensures var rv := ReviewReply(users, orders, reviews, orderId, itemId, rating, comment, header, verify, now).value;
            ReviewReply(users, orders, reviews + [rv], orderId, itemId, rating2, comment2, header, verify, later) ==
              Error(400, "You have already reviewed this item")
  {
    var rv := ReviewReply(users, orders, reviews, orderId, itemId, rating, comment, header, verify, now).value;
    assert (reviews + [rv])[|reviews|] == rv;
  }

  /** A rating outside 1..5 (0 included) is refused before the order is even looked up. */
  lemma BadRatingRefused(users: seq<Accounts.User>, orders: seq<Order>, reviews: seq<Review>, orderId: nat,
                         itemId: int, rating: int, comment: string, header: string, verify: string -> Claims,
                         now: int)
    requires header != "" && verify(BearerToken(header)).Claims?
    requires rating < 1 || rating > 5
    ensures ReviewReply(users, orders, reviews, orderId, itemId, rating, comment, header, verify, now) ==
              Error(400, "Rating must be between 1 and 5")
  {
  }

  /** An order that is not Delivered cannot be reviewed. */
  lemma UndeliveredRefused(users: seq<Accounts.User>, orders: seq<Order>, reviews: seq<Review>, orderId: nat,
                           itemId: int, rating: int, comment: string, header: string, verify: string -> Claims,
                           now: int)
    requires header != "" && verify(BearerToken(header)).Claims? && 1 <= rating <= 5
    requires forall k :: 0 <= k < |orders| && orders[k].id == orderId ==> orders[k].status != "Delivered"
    ensures ReviewReply(users, orders, reviews, orderId, itemId, rating, comment, header, verify, now) ==
              Error(404, "Order not found or not yet delivered")
  {
  }

  /** After an administrator marks the owner's order Delivered, its owner's first review of an item is accepted. */
  lemma DeliveryEnablesReview(users: seq<Accounts.User>, orders: seq<Order>, reviews: seq<Review>, orderId: nat,
                              itemId: int, rating: int, comment: string, header: string, verify: string -> Claims,
                              now: int, k: nat, m: nat)
    requires k < |orders| && m < |users|
    requires orders[k].id == orderId && users[m].id == orders[k].userId
    requires header != "" && verify(BearerToken(header)) == Claims(Some(users[m].email))
    requires 1 <= rating <= 5
    requires !Reviewed(reviews, orderId, itemId, users[m].email)
    ensures ReviewReply(users, SetStatus(orders, orderId, "Delivered"), reviews, orderId, itemId, rating, comment,
                        header, verify, now) == Ok(Review(orderId, itemId, users[m].email, rating, comment, now))
  {
    var updated := SetStatus(orders, orderId, "Delivered");
    assert updated[k].id == orderId && updated[k].status == "Delivered" && updated[k].userId == users[m].id;
    assert HasOwner(users, updated[k], users[m].email);
  }

  // ---------------------------------------------------------------- the tables

  /**
   * What every sequence of the handlers keeps: order ids are distinct and
   * below the next auto-increment value, item rows and reviews point below it
   * too, every stored rating is from 1 to 5, and no (order, item, user) is
   * reviewed twice.
   */
  ghost predicate BookInvariant(orders: seq<Order>, items: seq<OrderItem>, reviews: seq<Review>, nextId: nat)
  {
    && nextId >= 1
    && (forall k :: 0 <= k < |orders| ==> 1 <= orders[k].id < nextId)
    && (forall k, m :: 0 <= k < m < |orders| ==> orders[k].id != orders[m].id)
    && (forall k :: 0 <= k < |items| ==> items[k].orderId < nextId)
    && (forall k :: 0 <= k < |reviews| ==> 1 <= reviews[k].rating <= 5)
    && (forall k, m :: 0 <= k < m < |reviews| ==>
          !(reviews[k].orderId == reviews[m].orderId && reviews[k].itemId == reviews[m].itemId &&
            reviews[k].userEmail == reviews[m].userEmail))
  }

  /** One more submitted line adds one more item row. */
  lemma ItemRowsStep(orderId: nat, lines: seq<LineItem>, i: nat)
    requires i < |lines|
    ensures ItemRows(orderId, lines[..i + 1]) == ItemRows(orderId, lines[..i]) + [ItemRow(orderId, lines[i])]
  {
  }

  /** An order under the next id, with its item rows, keeps the invariant once the counter moves on. */
  lemma NewOrderKeepsInvariant(orders: seq<Order>, items: seq<OrderItem>, reviews: seq<Review>, nextId: nat,
                               o: Order, lines: seq<LineItem>)
    requires BookInvariant(orders, items, reviews, nextId)
    requires o.id == nextId
    ensures BookInvariant(orders + [o], items + ItemRows(nextId, lines), reviews, nextId + 1)
  {
    var os := orders + [o];
    var rows := items + ItemRows(nextId, lines);
    forall k | 0 <= k < |rows|
      ensures rows[k].orderId < nextId + 1
    {
      if k >= |items| {
        assert rows[k] == ItemRow(nextId, lines[k - |items|]);
      }
    }
    forall k, m | 0 <= k < m < |os|
      ensures os[k].id != os[m].id
    {
      if m == |orders| {
        assert os[k] == orders[k];
      }
    }
  }

  /** After the inserts, the new order's item rows are exactly the submitted lines. */
  lemma ItemsOfNewOrder(items: seq<OrderItem>, id: nat, lines: seq<LineItem>)
    requires forall k :: 0 <= k < |items| ==> items[k].orderId < id
    ensures ItemsOf(items + ItemRows(id, lines), id) == ItemRows(id, lines)
  {
    FilterAppend(items, ItemRows(id, lines), (it: OrderItem) => it.orderId == id);
    FreshIdHasNoItems(items, id);
  }

  /** No item row points at the id the next order will get. */
  lemma {:induction false} FreshIdHasNoItems(items: seq<OrderItem>, nextId: nat)
    requires forall k :: 0 <= k < |items| ==> items[k].orderId < nextId
    ensures ItemsOf(items, nextId) == []
  {
    if items != [] {
      FreshIdHasNoItems(items[1..], nextId);
    }
  }

  class OrderBook {
    var orders: seq<Order>
    var items: seq<OrderItem>
    var reviews: seq<Review>
    var nextId: nat

    ghost predicate Valid()
      reads this
    {
      BookInvariant(orders, items, reviews, nextId)
    }

    constructor ()
      ensures Valid() && orders == [] && items == [] && reviews == [] && nextId == 1
    {
      orders := [];
      items := [];
      reviews := [];
      nextId := 1;
    }

    /**
     * createOrder: the order row under the next id, then one item row per
     * line in a loop. On an error nothing is written.
     */
    method CreateOrder(users: seq<Accounts.User>, req: OrderRequest, now: int) returns (r: Reply<nat>)
      requires Valid()
      modifies this
      ensures Valid()
      ensures r.Error? <==> CreateCheck(users, req).Error?
      ensures r.Error? ==> r == CreateCheck(users, req) && unchanged(this)
      ensures r.Ok? ==> r.value == old(nextId) && nextId == old(nextId) + 1
      ensures r.Ok? ==> orders == old(orders) + [NewOrder(r.value, CreateCheck(users, req).value, req, now)]
      ensures r.Ok? ==> items == old(items) + ItemRows(r.value, req.items)
      ensures r.Ok? ==> ItemsOf(items, r.value) == ItemRows(r.value, req.items)
      ensures reviews == old(reviews)
    {
      var check := CreateCheck(users, req);
      if check.Error? {
        return check;
      }
      var id := nextId;
      orders := orders + [NewOrder(id, check.value, req, now)];
      nextId := nextId + 1;
      InsertItems(id, req.items);
      NewOrderKeepsInvariant(old(orders), old(items), reviews, id, NewOrder(id, check.value, req, now), req.items);
      ItemsOfNewOrder(old(items), id, req.items);
      r := Ok(id);
    }

    /** The loop of createOrder: one item row per submitted line, in order. */
    method InsertItems(id: nat, lines: seq<LineItem>)
      modifies this
      ensures items == old(items) + ItemRows(id, lines)
      ensures orders == old(orders) && reviews == old(reviews) && nextId == old(nextId)
    {
      for i := 0 to |lines|
        invariant items == old(items) + ItemRows(id, lines[..i])
        invariant orders == old(orders) && reviews == old(reviews) && nextId == old(nextId)
      {
        ItemRowsStep(id, lines, i);
        items := items + [ItemRow(id, lines[i])];
      }
      assert lines[..|lines|] == lines;
    }

    /** The loop of both listings: each order gets its item rows attached. */
    method AttachItems(list: seq<Order>) returns (views: seq<OrderView>)
      ensures OrdersOf(views) == list
      ensures forall k :: 0 <= k < |views| ==> views[k].items == ItemsOf(items, views[k].order.id)
    {
      views := [];
      for i := 0 to |list|
        invariant |views| == i
        invariant forall k :: 0 <= k < i ==> views[k] == OrderView(list[k], ItemsOf(items, list[k].id))
      {
        views := views + [OrderView(list[i], ItemsOf(items, list[i].id))];
      }
    }

    /**
     * getUserOrders: after the header and token checks, exactly the orders of
     * the token's user, newest first, each with its items.
     */
    method UserOrders(users: seq<Accounts.User>, header: string, verify: string -> Claims)
      returns (r: Reply<seq<OrderView>>)
      ensures r.Error? <==> ListCaller(users, header, verify).Error?
      ensures r.Error? ==> r.status == ListCaller(users, header, verify).status &&
                           r.message == ListCaller(users, header, verify).message
      ensures r.Ok? ==> SortedDesc(OrdersOf(r.value), CreatedAt)
      ensures r.Ok? ==> multiset(OrdersOf(r.value)) ==
                          multiset(Filter(orders, (o: Order) => o.userId == ListCaller(users, header, verify).value))
      ensures r.Ok? ==> forall k :: 0 <= k < |r.value| ==>
                          r.value[k].order in orders &&
                          r.value[k].order.userId == ListCaller(users, header, verify).value &&
                          r.value[k].items == ItemsOf(items, r.value[k].order.id)
    {
      var caller := ListCaller(users, header, verify);
      if caller.Error? {
        return Error(caller.status, caller.message);
      }
      var uid := caller.value;
      var mine := Filter(orders, (o: Order) => o.userId == uid);
      var sorted := SortDesc(mine, CreatedAt);
      var views := AttachItems(sorted);
      forall k | 0 <= k < |views|
        ensures views[k].order in orders && views[k].order.userId == uid
      {
        assert OrdersOf(views)[k] == views[k].order;
        assert views[k].order in multiset(sorted);
      }
      r := Ok(views);
    }

    /** getAllOrders: every order, newest first, each with its items. */
    method AllOrders() returns (views: seq<OrderView>)
      ensures SortedDesc(OrdersOf(views), CreatedAt)
      ensures multiset(OrdersOf(views)) == multiset(orders)
      ensures forall k :: 0 <= k < |views| ==> views[k].items == ItemsOf(items, views[k].order.id)
    {
      views := AttachItems(SortDesc(orders, CreatedAt));
    }

    /**
     * updateOrderStatus: 404 when no order has the id, otherwise the status is
     * overwritten with whatever was sent; the delivery email is attempted iff
     * the new status is exactly "Delivered".
     */
    method UpdateStatus(orderId: nat, status: string) returns (r: Reply<StatusUpdate>)
      requires Valid()
      modifies this
      ensures Valid()
      ensures !HasOrder(old(orders), orderId) ==> r == Error(404, "Order not found") && orders == old(orders)
      ensures HasOrder(old(orders), orderId) ==>
                r == Ok(StatusUpdate("Order " + DecimalString(orderId) + " status updated to " + status,
                                     status == "Delivered")) &&
                orders == SetStatus(old(orders), orderId, status)
      ensures items == old(items) && reviews == old(reviews) && nextId == old(nextId)
    {
      if !HasOrder(orders, orderId) {
        return Error(404, "Order not found");
      }
      orders := SetStatus(orders, orderId, status);
      r := Ok(StatusUpdate("Order " + DecimalString(orderId) + " status updated to " + status, status == "Delivered"));
    }

    /**
     * generateInvoice: for the owner only; the number, the bill-to block,
     * the address, and one line per item row built in the source's loop.
     */
    method GenerateInvoice(users: seq<Accounts.User>, orderId: nat, header: string, verify: string -> Claims)
      returns (r: Reply<Invoice>)
      ensures r.Error? <==> InvoiceCaller(users, orders, orderId, header, verify).Error?
      ensures r.Error? ==> r.status == InvoiceCaller(users, orders, orderId, header, verify).status &&
                           r.message == InvoiceCaller(users, orders, orderId, header, verify).message
      ensures r.Ok? ==>
                var (o, u) := InvoiceCaller(users, orders, orderId, header, verify).value;
                && r.value.number == InvoiceNumber(orderId) && r.value.orderId == orderId
                && r.value.status == o.status && r.value.total == o.total
                && r.value.billName == OrElse(OrElse(OrEmpty(o.contactName), u.username), "Customer")
                && r.value.billEmail == OrElse(o.contactEmail, u.email)
                && r.value.address == InvoiceAddress(o) && r.value.phone == o.phone
                && r.value.paymentMode == OrElse(o.paymentMode, "UPI")
                && |r.value.lines| == |ItemsOf(items, orderId)|
                && forall k :: 0 <= k < |r.value.lines| ==> r.value.lines[k] == LineFor(ItemsOf(items, orderId)[k])
    {
      var caller := InvoiceCaller(users, orders, orderId, header, verify);
      if caller.Error? {
        return Error(caller.status, caller.message);
      }
      var (o, u) := caller.value;
      var lines := InvoiceLines(ItemsOf(items, orderId));
      r := Ok(Invoice(InvoiceNumber(orderId), orderId, o.status,
                      OrElse(OrElse(OrEmpty(o.contactName), u.username), "Customer"),
                      OrElse(o.contactEmail, u.email), InvoiceAddress(o), o.phone, lines, o.total,
                      OrElse(o.paymentMode, "UPI")));
    }

    /** submitReview: the checks of ReviewReply, then exactly one insert. */
    method SubmitReview(users: seq<Accounts.User>, orderId: nat, itemId: int, rating: int, comment: string,
                        header: string, verify: string -> Claims, now: int) returns (r: Reply<Review>)
      requires Valid()
      modifies this
      ensures Valid()
      ensures r == ReviewReply(users, old(orders), old(reviews), orderId, itemId, rating, comment, header, verify, now)
      ensures r.Ok? ==> reviews == old(reviews) + [r.value]
      ensures r.Error? ==> reviews == old(reviews)
      ensures orders == old(orders) && items == old(items) && nextId == old(nextId)
    {
      r := ReviewReply(users, orders, reviews, orderId, itemId, rating, comment, header, verify, now);
      if r.Ok? {
        reviews := reviews + [r.value];
      }
    }
  }
}
