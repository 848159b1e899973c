/**
 * Orders (models/orderModel.js, controllers/orderController.js).
 *
 * An order snapshots the lines of a cart at the caller's tier price, adds a
 * shipping fee from a two-method table and starts Pending and Unpaid. An
 * admin update may replace the lines, the discount, the fee and the method,
 * recomputes the amount, moves the status along a fixed transition table
 * and settles the payment with the gateway. Accepting a pending order
 * checks the stock of every line before deducting any of it.
 *
 * The payment gateway is a parameter: what it answers is given, not
 * computed. Mail, PDF rendering and the franchise order log are not part of
 * this model.
 */
module OrderHandlers {
  import opened Common
  import Pricing
  import Products
  import Carts

  // ---------------------------------------------------------------------
  // Schema: status and payment enums, lines, orders
  // ---------------------------------------------------------------------

  /** The schema's `status` enum; new documents start Pending. */
  datatype Status = Pending | Processing | Delivered | Cancelled

  function StatusName(s: Status): (n: string)
  {
    match s
    case Pending => "Pending"
    case Processing => "Processing"
    case Delivered => "Delivered"
    case Cancelled => "Cancelled"
  }

  /** The status a request string names, when it names one of the four. */
  function ParseStatus(n: string): (s: Option<Status>)
    ensures s.Some? ==> StatusName(s.value) == n
  {
    if n == "Pending" then Some(Pending)
    else if n == "Processing" then Some(Processing)
    else if n == "Delivered" then Some(Delivered)
    else if n == "Cancelled" then Some(Cancelled)
    else None
  }

  /** Every status is named by exactly one string, and that string parses back to it. */
  lemma StatusNamesRoundTrip(s: Status, n: string)
    ensures ParseStatus(StatusName(s)) == Some(s)
    ensures ParseStatus(n) == Some(s) <==> n == StatusName(s)
  {
  }

  /**
   * What `paid` can hold. `NoPayment` is the schema default, stored as the
   * string "None"; `PaymentCancelled` is the string "Cancelled", which the
   * update handler writes although the schema's enum does not list it.
   */
  datatype Payment = Paid | Unpaid | Rejected | NoPayment | PaymentCancelled

  function PaymentName(p: Payment): (n: string)
  {
    match p
    case Paid => "Paid"
    case Unpaid => "Unpaid"
    case Rejected => "Rejected"
    case NoPayment => "None"
    case PaymentCancelled => "Cancelled"
  }

  /** The schema's `paid` enum. */
  const PaidEnum: set<string> := {"Paid", "Unpaid", "Rejected", "None"}

  predicate InPaidEnum(p: Payment)
  {
    PaymentName(p) in PaidEnum
  }

  /** "Cancelled" is the one value the handlers write that the enum rejects. */
  lemma OnlyCancelledOutsideEnum(p: Payment)
    ensures !InPaidEnum(p) <==> p == PaymentCancelled
  {
  }

  /** An order line: quantity (schema minimum 1), snapshot price, and the two request flags. */
  datatype Line = Line(product: Id, quantity: int, price: real, replaced: bool, refunded: bool)

  /** A line as placement creates it: the flags take their schema default, false. */
  function NewLine(product: Id, quantity: int, price: real): (l: Line)
    ensures l.product == product && l.quantity == quantity && l.price == price
    ensures !l.replaced && !l.refunded
  {
    Line(product, quantity, price, false, false)
  }

  datatype Order = Order(
    user: Id,
    cart: Id,
    items: seq<Line>,
    amount: real,
    paymentMethodId: string,
    paymentIntentId: Option<string>,
    status: Status,
    paid: Payment,
    shippingFee: real,
    shippingMethod: string,
    discount: real)

  /** The line validator: quantity at least 1. */
  predicate LinesValid(ls: seq<Line>)
  {
    forall i :: 0 <= i < |ls| ==> ls[i].quantity >= 1
  }

  // ---------------------------------------------------------------------
  // Subtotal and shipping fee
  // ---------------------------------------------------------------------

  /** `Σ price × quantity`, folded from the left as `reduce` does. */
  function Subtotal(ls: seq<Line>): real
  {
    if ls == [] then 0.0
    else Subtotal(ls[..|ls| - 1]) + ls[|ls| - 1].price * ls[|ls| - 1].quantity as real
  }

  /** The subtotal of a concatenation is the sum of the subtotals. */
  lemma {:induction false} SubtotalAppend(a: seq<Line>, b: seq<Line>)
    ensures Subtotal(a + b) == Subtotal(a) + Subtotal(b)
    decreases |b|
  {
    if b == [] {
      assert a + b == a;
    } else {
      var b' := b[..|b| - 1];
      assert (a + b)[..|a + b| - 1] == a + b';
      SubtotalAppend(a, b');
    }
  }

  /** Lines with non-negative prices and quantities have a non-negative subtotal. */
  lemma {:induction false} SubtotalNonNegative(ls: seq<Line>)
    requires forall i :: 0 <= i < |ls| ==> ls[i].price >= 0.0 && ls[i].quantity >= 0
    ensures Subtotal(ls) >= 0.0
  {
    if ls != [] {
      SubtotalNonNegative(ls[..|ls| - 1]);
    }
  }

  datatype Method = Ground | Overnight

  /** The ground column: 10, 20, 30 below 51, 251, 500, then free. */
  function GroundFee(base: real): (fee: real)
    ensures fee in {0.0, 10.0, 20.0, 30.0}
    ensures fee == 0.0 <==> base >= 500.0
  {
    if base < 51.0 then 10.0
    else if base < 251.0 then 20.0
    else if base < 500.0 then 30.0
    else 0.0
  }

  /** The overnight column: 15, 25, 35, 49 below 51, 251, 600, 800, then 30. */
  function OvernightFee(base: real): (fee: real)
    ensures 15.0 <= fee <= 49.0
    ensures fee > GroundFee(base)
  {
    if base < 51.0 then 15.0
    else if base < 251.0 then 25.0
    else if base < 600.0 then 35.0
    else if base < 800.0 then 49.0
    else 30.0
  }

  function FeeFor(m: Method, base: real): (fee: real)
    ensures m == Ground ==> fee == GroundFee(base)
    ensures m == Overnight ==> fee == OvernightFee(base)
  {
    match m
    case Ground => GroundFee(base)
    case Overnight => OvernightFee(base)
  }

  /** `placeOrder` lowercases the method and knows "ground" and "overnight". */
  function PlacementMethod(name: string): (m: Option<Method>)
    ensures m == Some(Ground) <==> Lower(name) == "ground"
    ensures m == Some(Overnight) <==> Lower(name) == "overnight"
  {
    if Lower(name) == "ground" then Some(Ground)
    else if Lower(name) == "overnight" then Some(Overnight)
    else None
  }

  /** `updateOrder` compares exactly and knows "Ground" and "Overnite". */
  function UpdateMethod(name: string): (m: Option<Method>)
    ensures m == Some(Ground) <==> name == "Ground"
    ensures m == Some(Overnight) <==> name == "Overnite"
  {
    if name == "Ground" then Some(Ground)
    else if name == "Overnite" then Some(Overnight)
    else None
  }

  /**
   * The two spellings agree only on "Ground": no string is an overnight
   * method for both handlers, and the lowercase names placement stores
   * are unknown to the update.
   */
  lemma MethodSpellings(name: string)
    ensures UpdateMethod(name) == Some(Ground) ==> PlacementMethod(name) == Some(Ground)
    ensures UpdateMethod(name) == Some(Overnight) ==> PlacementMethod(name).None?
    ensures PlacementMethod(name) == Some(Overnight) ==> UpdateMethod(name).None?
    ensures UpdateMethod("ground").None? && UpdateMethod("overnight").None?
  {
    if name == "Ground" {
      assert Lower(name) == "ground";
    }
    if name == "Overnite" {
      assert |Lower(name)| == 8;
    }
  }

  // ---------------------------------------------------------------------
  // The documents the handlers read and write
  // ---------------------------------------------------------------------

  /** Orders, carts, products, and each user's `role` field. */
  datatype Shop = Shop(
    orders: map<Id, Order>,
    carts: Carts.CartStore,
    products: Products.Store,
    users: map<Id, Option<string>>)

  const AdminRole := "Admin"
  const ServerError := "Server error."

  // ---------------------------------------------------------------------
  // placeOrder
  // ---------------------------------------------------------------------

  /**
   * The body of `placeOrder`. An empty string stands for a missing or empty
   * field; `discount` defaults to 0.
   */
  datatype PlaceRequest = PlaceRequest(
    userId: Option<Id>,
    callerRole: string,
    cart: Option<Id>,
    paymentMethodId: string,
    shippingMethod: string,
    hasShippingAddress: bool,
    hasBillingAddress: bool,
    discount: Option<real>)

  const FieldsMessage := "All fields are required."
  const PaymentIdMessage := "Invalid payment method ID format. Payment method ID must start with 'pm_'."
  const AdminOrderMessage := "Unauthorized access. Only franchises can place orders."
  const CartMessage := "Cart not found or is empty."

  /** The price a line is snapshotted at: the tier's price, or 0 without one. */
  function LinePrice(p: Products.Product, t: Pricing.Tier): (r: real)
    ensures t in p.pricing ==> r == p.pricing[t]
    ensures t !in p.pricing ==> r == 0.0
  {
    Pricing.OrderPrice(Pricing.Priced(Some(p.price), p.pricing), t)
  }

  predicate Stocked(ps: Products.Store, items: seq<Carts.CartLine>)
  {
    forall i :: 0 <= i < |items| ==> items[i].product in ps
  }

  /** The order lines of a cart whose products all exist. */
  function Snapshot(ps: Products.Store, items: seq<Carts.CartLine>, t: Pricing.Tier): (ls: seq<Line>)
    requires Stocked(ps, items)
    ensures |ls| == |items|
    ensures forall i :: 0 <= i < |items| ==>
      ls[i] == NewLine(items[i].product, items[i].quantity, LinePrice(ps[items[i].product], t))
  {
    seq(|items|, i requires 0 <= i < |items| =>
      NewLine(items[i].product, items[i].quantity, LinePrice(ps[items[i].product], t)))
  }

  /**
   * The loop of `placeOrder`: one pass that pushes each snapshot line and
   * adds its total to a running subtotal. It computes the snapshot and its
   * subtotal.
   */
  method SnapshotLoop(ps: Products.Store, items: seq<Carts.CartLine>, t: Pricing.Tier)
    returns (ls: seq<Line>, subtotal: real)
    requires Stocked(ps, items)
    ensures ls == Snapshot(ps, items, t)
    ensures subtotal == Subtotal(ls)
  {
    ls := [];
    subtotal := 0.0;
    var i := 0;
    while i < |items|
      invariant 0 <= i <= |items|
      invariant ls == Snapshot(ps, items[..i], t)
      invariant subtotal == Subtotal(ls)
    {
      var item := items[i];
      var price := LinePrice(ps[item.product], t);
      var line := NewLine(item.product, item.quantity, price);
      assert (ls + [line])[..|ls|] == ls;
      ls := ls + [line];
      subtotal := subtotal + price * item.quantity as real;
      i := i + 1;
      assert ls == Snapshot(ps, items[..i], t);
    }
    assert items[..i] == items;
  }

  /** The cart a request names, when it belongs to the caller and has lines. */
  predicate CartUsable(shop: Shop, user: Id, c: Id)
  {
    c in shop.carts && shop.carts[c].owner == user && shop.carts[c].items != []
  }

  /**
   * The checks of `placeOrder`, in order: caller id, required fields, the
   * "pm_" prefix, Admin callers (403), the user (404), the gateway's view of
   * the payment method (400, its message given as `gateway`), the cart
   * (404), products the cart names but the store lacks (reading their
   * pricing throws: 500), the shipping method (400), and the line validator
   * of `Order.create` (500).
   */
  function PlaceChecks(shop: Shop, rq: PlaceRequest, gateway: Option<string>): (r: Result<()>)
    ensures r.Ok? ==> rq.userId.Some? && rq.cart.Some? && rq.userId.value in shop.users
    ensures r.Ok? ==> CartUsable(shop, rq.userId.value, rq.cart.value)
    ensures r.Ok? ==> Stocked(shop.products, shop.carts[rq.cart.value].items)
    ensures r.Ok? ==> PlacementMethod(rq.shippingMethod).Some?
    ensures r.Ok? <==>
      rq.userId.Some? && rq.cart.Some? && rq.paymentMethodId != "" && rq.hasShippingAddress
      && rq.hasBillingAddress && rq.shippingMethod != "" && "pm_" <= rq.paymentMethodId
      && rq.callerRole != AdminRole && rq.userId.value in shop.users && gateway.None?
      && CartUsable(shop, rq.userId.value, rq.cart.value)
      && Stocked(shop.products, shop.carts[rq.cart.value].items)
      && PlacementMethod(rq.shippingMethod).Some?
      && LinesValid(Snapshot(shop.products, shop.carts[rq.cart.value].items, Pricing.TierOf(shop.users[rq.userId.value])))
  {
    if rq.userId.None? then Err(400, "User ID is required")
    else if rq.cart.None? || rq.paymentMethodId == "" || !rq.hasShippingAddress
      || !rq.hasBillingAddress || rq.shippingMethod == "" then Err(400, FieldsMessage)
    else if !("pm_" <= rq.paymentMethodId) then Err(400, PaymentIdMessage)
    else if rq.callerRole == AdminRole then Err(403, AdminOrderMessage)
    else if rq.userId.value !in shop.users then Err(404, "User not found.")
    else if gateway.Some? then Err(400, gateway.value)
    else if !CartUsable(shop, rq.userId.value, rq.cart.value) then Err(404, CartMessage)
    else if !Stocked(shop.products, shop.carts[rq.cart.value].items) then Err(500, ServerError)
    else if PlacementMethod(rq.shippingMethod).None? then Err(400, "Invalid shipping method.")
    else if !LinesValid(Snapshot(shop.products, shop.carts[rq.cart.value].items,
                                 Pricing.TierOf(shop.users[rq.userId.value]))) then Err(500, ServerError)
    else Ok(())
  }

  /** The order `placeOrder` creates, once its checks pass. */
  function PlacedOrder(shop: Shop, rq: PlaceRequest, intentId: string): (o: Order)
    requires rq.userId.Some? && rq.cart.Some? && rq.userId.value in shop.users
    requires rq.cart.value in shop.carts && Stocked(shop.products, shop.carts[rq.cart.value].items)
    requires PlacementMethod(rq.shippingMethod).Some?
  {
    var lines := Snapshot(shop.products, shop.carts[rq.cart.value].items, Pricing.TierOf(shop.users[rq.userId.value]));
    var base := Subtotal(lines) - rq.discount.GetOr(0.0);
    var fee := FeeFor(PlacementMethod(rq.shippingMethod).value, base);
    Order(rq.userId.value, rq.cart.value, lines, base + fee, rq.paymentMethodId, Some(intentId),
          Pending, Unpaid, fee, rq.shippingMethod, rq.discount.GetOr(0.0))
  }

  /**
   * `placeOrder`. On success the order is stored under the fresh id the
   * database assigns and the cart is deactivated; on any error nothing is
   * written. `intentId` is the payment intent the gateway creates.
   */
  function PlaceOrder(shop: Shop, rq: PlaceRequest, gateway: Option<string>, intentId: string, newId: Id)
    : (out: Outcome<Shop, Order>)
    requires newId !in shop.orders
    ensures out.result.Ok? <==> PlaceChecks(shop, rq, gateway).Ok?
    ensures out.result.Err? ==> out.state == shop && out.result == Err(PlaceChecks(shop, rq, gateway).status, PlaceChecks(shop, rq, gateway).message)
    ensures out.state.orders.Keys <= shop.orders.Keys + {newId}
    ensures out.state.products == shop.products && out.state.users == shop.users
  {
    var checks := PlaceChecks(shop, rq, gateway);
    if checks.Err? then Outcome(shop, Err(checks.status, checks.message))
    else
      var o := PlacedOrder(shop, rq, intentId);
      var c := rq.cart.value;
      Outcome(shop.(orders := shop.orders[newId := o],
                    carts := shop.carts[c := shop.carts[c].(isActive := false)]), Ok(o))
  }

  /**
   * A placed order: one line per cart line at the caller's tier price (0
   * without one), amount = subtotal − discount + fee on that base, Pending
   * and Unpaid; the cart is deactivated and no other cart or order changes.
   */
  lemma PlaceOrderWrites(shop: Shop, rq: PlaceRequest, gateway: Option<string>, intentId: string, newId: Id)
    requires newId !in shop.orders
    requires PlaceChecks(shop, rq, gateway).Ok?
    ensures var out := PlaceOrder(shop, rq, gateway, intentId, newId);
      var o := out.result.value;
      var cart := shop.carts[rq.cart.value];
      var tier := Pricing.TierOf(shop.users[rq.userId.value]);
      out.result.Ok? && out.state.orders == shop.orders[newId := o]
      && |o.items| == |cart.items|
      && (forall i :: 0 <= i < |o.items| ==>
            o.items[i].product == cart.items[i].product && o.items[i].quantity == cart.items[i].quantity
            && o.items[i].price == LinePrice(shop.products[cart.items[i].product], tier)
            && !o.items[i].replaced && !o.items[i].refunded)
      && o.discount == rq.discount.GetOr(0.0)
      && o.shippingFee == FeeFor(PlacementMethod(rq.shippingMethod).value, Subtotal(o.items) - o.discount)
      && o.amount == Subtotal(o.items) - o.discount + o.shippingFee
      && o.status == Pending && o.paid == Unpaid && o.paymentIntentId == Some(intentId)
      && InPaidEnum(o.paid) && LinesValid(o.items)
      && out.state.carts.Keys == shop.carts.Keys
      && !out.state.carts[rq.cart.value].isActive
      && (forall c :: c in shop.carts && c != rq.cart.value ==> out.state.carts[c] == shop.carts[c])
  {
  }

  // ---------------------------------------------------------------------
  // updateOrder
  // ---------------------------------------------------------------------

  /** The statuses a status may move to; Delivered and Cancelled have no way out. */
  predicate Allowed(from: Status, to: string)
  {
    match from
    case Pending => to == "Processing" || to == "Cancelled"
    case Processing => to == "Delivered" || to == "Cancelled"
    case Delivered => false
    case Cancelled => false
  }

  /** How far along an order is. */
  function Rank(s: Status): (n: nat)
    ensures s == Pending <==> n == 0
  {
    match s
    case Pending => 0
    case Processing => 1
    case Delivered => 2
    case Cancelled => 3
  }

  /**
   * Every allowed transition names a status of the enum and moves strictly
   * forward, so the later "invalid status" check can never fire and no
   * order returns to a status it left.
   */
  lemma TransitionsAdvance(from: Status, to: string)
    requires Allowed(from, to)
    ensures ParseStatus(to).Some?
    ensures Rank(ParseStatus(to).value) > Rank(from)
    ensures from != Delivered && from != Cancelled
  {
  }

  /** What the gateway answers when the update confirms the payment intent. */
  datatype Confirmation = Succeeded | NotSucceeded | Failed(code: string, message: string)

  /** The update body. An empty string stands for a missing status or method. */
  datatype UpdateRequest = UpdateRequest(
    orderId: Option<Id>,
    callerRole: string,
    items: Option<seq<Line>>,
    shippingFees: Option<real>,
    discount: Option<real>,
    status: string,
    shippingMethod: string)

  /** `discount || existing.discount || 0`: a passed 0 falls back to the stored discount. */
  function EffectiveDiscount(given: Option<real>, stored: real): (d: real)
    ensures given.Some? && given.value != 0.0 ==> d == given.value
    ensures (given.None? || given.value == 0.0) ==> d == stored
  {
    if given.Some? && given.value != 0.0 then given.value else stored
  }

  /** The message for a failed confirmation, by the gateway's error code. */
  function DeclineMessage(code: string, message: string): (m: string)
  {
    if code == "authentication_required" then
      "Payment requires additional authentication. Please contact the customer to update their payment method."
    else if code == "card_declined" then "Payment was declined. The customer's card was declined."
    else if code == "insufficient_funds" then "Payment failed due to insufficient funds."
    else "Payment failed: " + message
  }

  /** The method the fee is recomputed with: the passed one, else the stored one. */
  function FeeMethod(o: Order, rq: UpdateRequest): (name: string)
  {
    if rq.shippingMethod != "" then rq.shippingMethod else o.shippingMethod
  }

  /** The fee is recomputed when a method is passed or no fee is. */
  predicate Recomputes(rq: UpdateRequest)
  {
    rq.shippingMethod != "" || rq.shippingFees.None?
  }

  /** The base the fee is looked up on: new subtotal minus the effective discount. */
  function UpdateBase(o: Order, rq: UpdateRequest): real
  {
    Subtotal(rq.items.GetOr(o.items)) - EffectiveDiscount(rq.discount, o.discount)
  }

  /** The fee that enters the amount. */
  function UpdateFee(o: Order, rq: UpdateRequest): (fee: real)
    requires Recomputes(rq) ==> UpdateMethod(FeeMethod(o, rq)).Some?
    ensures Recomputes(rq) ==> fee == FeeFor(UpdateMethod(FeeMethod(o, rq)).value, UpdateBase(o, rq))
    ensures !Recomputes(rq) ==> fee == rq.shippingFees.value
  {
    if Recomputes(rq) then FeeFor(UpdateMethod(FeeMethod(o, rq)).value, UpdateBase(o, rq))
    else rq.shippingFees.value
  }

  /** Whether the update confirms the payment intent. */
  predicate Confirms(o: Order, rq: UpdateRequest)
  {
    (rq.status == "Processing" || rq.status == "Delivered") && o.paid != Paid && o.paymentIntentId.Some?
  }

  /** The `paid` value the update writes, when it writes one. */
  function NewPaid(o: Order, rq: UpdateRequest, gateway: Confirmation): (p: Option<Payment>)
    requires !(Confirms(o, rq) && gateway.Failed?)
    ensures p == Some(PaymentCancelled) <==> rq.status == "Cancelled" && o.paymentIntentId.Some?
    ensures p == Some(Paid) <==> Confirms(o, rq) && gateway.Succeeded?
    ensures p == Some(Rejected) <==> Confirms(o, rq) && gateway.NotSucceeded?
    ensures p.None? <==> !Confirms(o, rq) && !(rq.status == "Cancelled" && o.paymentIntentId.Some?)
  {
    if rq.status == "Cancelled" && o.paymentIntentId.Some? then Some(PaymentCancelled)
    else if Confirms(o, rq) then (if gateway.Succeeded? then Some(Paid) else Some(Rejected))
    else None
  }

  /** The checks of `updateOrder` that come before any write is attempted. */
  function UpdateChecks(orders: map<Id, Order>, rq: UpdateRequest, gateway: Confirmation): (r: Result<()>)
    ensures r.Ok? ==> rq.orderId.Some? && rq.orderId.value in orders
    ensures r.Ok? ==> rq.callerRole == AdminRole
    ensures r.Ok? && rq.status != "" ==> Allowed(orders[rq.orderId.value].status, rq.status)
    ensures r.Ok? && Recomputes(rq) ==> UpdateMethod(FeeMethod(orders[rq.orderId.value], rq)).Some?
    ensures r.Ok? ==> !(Confirms(orders[rq.orderId.value], rq) && gateway.Failed?)
    ensures rq.orderId.None? ==> r == Err(400, "Order ID is required.")
    ensures rq.orderId.Some? && rq.orderId.value !in orders ==> r == Err(404, "Order not found.")
    ensures rq.orderId.Some? && rq.orderId.value in orders && rq.callerRole != AdminRole ==> r == Err(500, ServerError)
  {
    if rq.orderId.None? then Err(400, "Order ID is required.")
    else if rq.orderId.value !in orders then Err(404, "Order not found.")
    else
      var o := orders[rq.orderId.value];
      // The ownership check reads an identifier the handler never declares,
      // so every caller but an admin gets the generic server error.
      if rq.callerRole != AdminRole then Err(500, ServerError)
      else if rq.status != "" && !Allowed(o.status, rq.status) then
        Err(400, "Cannot change status from " + StatusName(o.status) + " to " + rq.status + ".")
      else if Recomputes(rq) && UpdateMethod(FeeMethod(o, rq)).None? then
        Err(400, "Invalid or missing shipping method.")
      else if Confirms(o, rq) && gateway.Failed? then Err(400, DeclineMessage(gateway.code, gateway.message))
      else Ok(())
  }

  /** The order as the update would leave it. */
  function Updated(o: Order, rq: UpdateRequest, gateway: Confirmation): (u: Order)
    requires Recomputes(rq) ==> UpdateMethod(FeeMethod(o, rq)).Some?
    requires rq.status != "" ==> Allowed(o.status, rq.status)
    requires !(Confirms(o, rq) && gateway.Failed?)
  {
    var fee := UpdateFee(o, rq);
    var paid := NewPaid(o, rq, gateway);
    o.(items := rq.items.GetOr(o.items),
       discount := rq.discount.GetOr(o.discount),
       shippingMethod := if rq.shippingMethod != "" then rq.shippingMethod else o.shippingMethod,
       shippingFee := if Recomputes(rq) then fee else o.shippingFee,
       amount := UpdateBase(o, rq) + fee,
       status := if rq.status != "" then ParseStatus(rq.status).value else o.status,
       paid := paid.GetOr(o.paid))
  }

  /**
   * The write runs the schema's validators on the paths it sets: a `paid`
   * outside the enum, or replaced lines with a quantity below 1, make it
   * throw.
   */
  predicate WriteValid(o: Order, rq: UpdateRequest, gateway: Confirmation)
    requires !(Confirms(o, rq) && gateway.Failed?)
  {
    var paid := NewPaid(o, rq, gateway);
    (paid.Some? ==> InPaidEnum(paid.value)) && (rq.items.Some? ==> LinesValid(rq.items.value))
  }

  /**
   * `updateOrder`, admin path. Checks fail with their status and change
   * nothing; a write the validators reject is a 500 and changes nothing;
   * otherwise only the named order changes.
   */
  function UpdateOrder(orders: map<Id, Order>, rq: UpdateRequest, gateway: Confirmation)
    : (out: Outcome<map<Id, Order>, Order>)
    ensures out.result.Err? ==> out.state == orders
    ensures UpdateChecks(orders, rq, gateway).Err? ==>
      out.result == Err(UpdateChecks(orders, rq, gateway).status, UpdateChecks(orders, rq, gateway).message)
    ensures out.state.Keys == orders.Keys
    ensures out.result.Ok? ==> UpdateChecks(orders, rq, gateway).Ok?
    ensures out.result.Ok? ==> out.state == orders[rq.orderId.value := out.result.value]
  {
    var checks := UpdateChecks(orders, rq, gateway);
    if checks.Err? then Outcome(orders, Err(checks.status, checks.message))
    else
      var o := orders[rq.orderId.value];
      if !WriteValid(o, rq, gateway) then Outcome(orders, Err(500, ServerError))
      else
        var u := Updated(o, rq, gateway);
        Outcome(orders[rq.orderId.value := u], Ok(u))
  }

  /**
   * A successful update stores amount = Σ price × quantity of the new lines −
   * the effective discount + the fee; when the fee is recomputed it comes
   * from the exact-spelling table on that base and is stored too.
   */
  lemma UpdateAmount(orders: map<Id, Order>, rq: UpdateRequest, gateway: Confirmation)
    requires UpdateOrder(orders, rq, gateway).result.Ok?
    ensures var o := orders[rq.orderId.value];
      var u := UpdateOrder(orders, rq, gateway).result.value;
      u.items == rq.items.GetOr(o.items)
      && u.amount == Subtotal(u.items) - EffectiveDiscount(rq.discount, o.discount) + UpdateFee(o, rq)
      && (Recomputes(rq) ==> u.shippingFee == FeeFor(UpdateMethod(FeeMethod(o, rq)).value, Subtotal(u.items) - EffectiveDiscount(rq.discount, o.discount)))
      && (!Recomputes(rq) ==> u.shippingFee == o.shippingFee)
  {
  }

  /**
   * A successful update only takes allowed transitions: the status stays,
   * or it moves forward along the table; Delivered and Cancelled orders
   * keep their status.
   */
  lemma UpdateFollowsTransitions(orders: map<Id, Order>, rq: UpdateRequest, gateway: Confirmation)
    requires UpdateOrder(orders, rq, gateway).result.Ok?
    ensures var o := orders[rq.orderId.value];
      var u := UpdateOrder(orders, rq, gateway).result.value;
      (u.status == o.status <==> rq.status == "")
      && (rq.status != "" ==> Allowed(o.status, rq.status) && u.status == ParseStatus(rq.status).value)
      && Rank(u.status) >= Rank(o.status)
      && (o.status in {Delivered, Cancelled} ==> u.status == o.status)
  {
    var o := orders[rq.orderId.value];
    if rq.status != "" {
      TransitionsAdvance(o.status, rq.status);
    }
  }

  /**
   * Entering Processing or Delivered with an intent and no payment yet
   * settles the payment: Paid exactly when the gateway reports success,
   * Rejected otherwise; a gateway error is a 400 that writes nothing.
   */
  lemma UpdatePaymentDecision(orders: map<Id, Order>, rq: UpdateRequest, gateway: Confirmation)
    requires rq.orderId.Some? && rq.orderId.value in orders
    requires Confirms(orders[rq.orderId.value], rq)
    ensures var out := UpdateOrder(orders, rq, gateway);
      out.result.Ok? ==>
        (out.result.value.paid == Paid <==> gateway.Succeeded?)
        && (gateway.NotSucceeded? ==> out.result.value.paid == Rejected)
    ensures var out := UpdateOrder(orders, rq, gateway);
      gateway.Failed? ==> out.result.Err? && out.result.status in {400, 404, 500} && out.state == orders
  {
  }

  /**
   * Cancelling an order that has a payment intent writes paid "Cancelled",
   * which the enum rejects: the update fails with a 500 and the order keeps
   * its status, although the gateway has already been asked to cancel.
   */
  lemma CancelWithIntentFails(orders: map<Id, Order>, rq: UpdateRequest, gateway: Confirmation)
    requires UpdateChecks(orders, rq, gateway).Ok?
    requires rq.status == "Cancelled" && orders[rq.orderId.value].paymentIntentId.Some?
    ensures UpdateOrder(orders, rq, gateway) == Outcome(orders, Err(500, ServerError))
  {
  }

  /** Without an intent, a cancel goes through and leaves `paid` alone. */
  lemma CancelWithoutIntent(orders: map<Id, Order>, rq: UpdateRequest, gateway: Confirmation)
    requires UpdateChecks(orders, rq, gateway).Ok?
    requires rq.status == "Cancelled" && orders[rq.orderId.value].paymentIntentId.None?
    requires rq.items.Some? ==> LinesValid(rq.items.value)
    ensures var out := UpdateOrder(orders, rq, gateway);
      out.result.Ok? && out.result.value.status == Cancelled
      && out.result.value.paid == orders[rq.orderId.value].paid
  {
  }

  /**
   * Passing a discount of 0 stores 0 but computes the amount with the old
   * discount, so the stored amount is not subtotal − stored discount + fee.
   */
  lemma ZeroDiscountFallsBack(orders: map<Id, Order>, rq: UpdateRequest, gateway: Confirmation)
    requires UpdateOrder(orders, rq, gateway).result.Ok?
    requires rq.discount == Some(0.0) && orders[rq.orderId.value].discount != 0.0
    ensures var u := UpdateOrder(orders, rq, gateway).result.value;
      u.discount == 0.0
      && u.amount == Subtotal(u.items) - orders[rq.orderId.value].discount + UpdateFee(orders[rq.orderId.value], rq)
      && u.amount != Subtotal(u.items) - u.discount + UpdateFee(orders[rq.orderId.value], rq)
  {
  }

  /**
   * A passed fee with no passed method enters the amount but is not
   * stored: the stored fee stays the old one.
   */
  lemma PassedFeeNotStored(orders: map<Id, Order>, rq: UpdateRequest, gateway: Confirmation)
    requires UpdateOrder(orders, rq, gateway).result.Ok?
    requires rq.shippingFees.Some? && rq.shippingMethod == ""
    ensures var o := orders[rq.orderId.value];
      var u := UpdateOrder(orders, rq, gateway).result.value;
      u.shippingFee == o.shippingFee && u.amount == UpdateBase(o, rq) + rq.shippingFees.value
  {
  }

  /**
   * An order placed with a lowercase method ("ground", "overnight") cannot
   * have its fee recomputed from its stored method: an admin update that
   * passes neither a method nor a fee is a 400 once the status check passes.
   */
  lemma PlacedMethodBlocksRecompute(orders: map<Id, Order>, rq: UpdateRequest, gateway: Confirmation)
    requires rq.orderId.Some? && rq.orderId.value in orders && rq.callerRole == AdminRole
    requires orders[rq.orderId.value].shippingMethod in {"ground", "overnight"}
    requires rq.shippingMethod == "" && rq.shippingFees.None?
    requires rq.status != "" ==> Allowed(orders[rq.orderId.value].status, rq.status)
    ensures UpdateOrder(orders, rq, gateway) == Outcome(orders, Err(400, "Invalid or missing shipping method."))
  {
    MethodSpellings(orders[rq.orderId.value].shippingMethod);
  }

  // ---------------------------------------------------------------------
  // acceptOrder
  // ---------------------------------------------------------------------

  datatype AcceptRequest = AcceptRequest(
    callerRole: string,
    orderId: Option<Id>,
    status: Option<Status>,
    items: Option<seq<Line>>,
    shippingFees: Option<real>)

  const AcceptFailedMessage := "Failed to accept order"

  /** The line's product is stored and has the stock the line asks for. */
  predicate Fits(ps: Products.Store, l: Line)
  {
    l.product in ps && ps[l.product].stock >= l.quantity
  }

  /** Line `i` is the first line that does not fit. */
  predicate FirstUnfit(ps: Products.Store, ls: seq<Line>, i: int)
  {
    0 <= i < |ls| && !Fits(ps, ls[i]) && forall j :: 0 <= j < i ==> Fits(ps, ls[j])
  }

  /**
   * The stock check of `acceptOrder`, line by line in order. A line whose
   * product is gone is a 404 when the lines were passed in the request; the
   * order's own lines are populated, so a product deleted since reads as
   * null there, and reading its `_id` throws, which is answered 500. A line
   * short of stock is a 400.
   */
  function StockCheck(ps: Products.Store, ls: seq<Line>, populated: bool): (r: Result<()>)
    ensures r.Ok? <==> forall i :: 0 <= i < |ls| ==> Fits(ps, ls[i])
    ensures forall i :: FirstUnfit(ps, ls, i) ==>
      r.Err? && r.status == (if ls[i].product in ps then 400 else if populated then 500 else 404)
    ensures r.Err? ==> r.status in {400, 404, 500}
  {
    if ls == [] then Ok(())
    else if ls[0].product !in ps then
      (if populated then Err(500, AcceptFailedMessage) else Err(404, "Product not found"))
    else if ps[ls[0].product].stock < ls[0].quantity then Err(400, "Insufficient stock")
    else
      var rest := StockCheck(ps, ls[1..], populated);
      assert forall i :: 1 <= i < |ls| ==> ls[i] == ls[1..][i - 1];
      assert forall i :: FirstUnfit(ps, ls, i) ==> i >= 1 && FirstUnfit(ps, ls[1..], i - 1);
      rest
  }

  /** `updateOne({_id, stock: {$gte: q}}, {$inc: {stock: -q}})`: a decrement only when it fits. */
  function DeductOne(ps: Products.Store, l: Line): (r: Products.Store)
    ensures r.Keys == ps.Keys
    ensures forall x :: x in ps && x != l.product ==> r[x] == ps[x]
    ensures l.product in ps ==> r[l.product] == ps[l.product].(stock := r[l.product].stock)
    ensures l.product in ps && ps[l.product].stock >= l.quantity ==> r[l.product].stock == ps[l.product].stock - l.quantity
    ensures l.product in ps && ps[l.product].stock < l.quantity ==> r[l.product] == ps[l.product]
  {
    if l.product in ps && ps[l.product].stock >= l.quantity then
      ps[l.product := ps[l.product].(stock := ps[l.product].stock - l.quantity)]
    else ps
  }

  /** The guarded decrements, one line after the other. */
  function Deduct(ps: Products.Store, ls: seq<Line>): (r: Products.Store)
    ensures r.Keys == ps.Keys
    decreases |ls|
  {
    if ls == [] then ps else Deduct(DeductOne(ps, ls[0]), ls[1..])
  }

  /** Does some line name the product? */
  predicate Names(ls: seq<Line>, x: Id)
  {
    exists i :: 0 <= i < |ls| && ls[i].product == x
  }

  /**
   * The decrements change only stock, only of named products, and never
   * leave a stock they changed negative.
   */
  lemma {:induction false} DeductFrame(ps: Products.Store, ls: seq<Line>, x: Id)
    requires x in ps
    ensures var r := Deduct(ps, ls);
      r[x] == ps[x].(stock := r[x].stock)
      && (!Names(ls, x) ==> r[x] == ps[x])
      && (r[x].stock == ps[x].stock || r[x].stock >= 0)
    decreases |ls|
  {
    if ls != [] {
      var p1 := DeductOne(ps, ls[0]);
      DeductFrame(p1, ls[1..], x);
      if !Names(ls, x) {
        assert !Names(ls[1..], x) by {
          forall i | 0 <= i < |ls[1..]|
            ensures ls[1..][i].product != x
          {
            assert ls[1..][i] == ls[i + 1];
          }
        }
      }
    }
  }

  /** Each line names a product no other line names. */
  predicate DistinctProducts(ls: seq<Line>)
  {
    forall i, j :: 0 <= i < j < |ls| ==> ls[i].product != ls[j].product
  }

  /** How much of a product the lines ask for. */
  function Demand(ls: seq<Line>, x: Id): int
    decreases |ls|
  {
    if ls == [] then 0 else (if ls[0].product == x then ls[0].quantity else 0) + Demand(ls[1..], x)
  }

  /**
   * When the stock check passed and no product appears on two lines, every
   * product loses exactly what the lines ask for.
   */
  lemma {:induction false} DeductExact(ps: Products.Store, ls: seq<Line>, x: Id)
    requires StockCheck(ps, ls, false).Ok? && DistinctProducts(ls) && x in ps
    ensures Deduct(ps, ls)[x].stock == ps[x].stock - Demand(ls, x)
    decreases |ls|
  {
    if ls != [] {
      var p1 := DeductOne(ps, ls[0]);
      assert forall i :: 0 <= i < |ls[1..]| ==> ls[1..][i] == ls[i + 1];
      assert StockCheck(p1, ls[1..], false).Ok?;
      DeductExact(p1, ls[1..], x);
      if ls[0].product == x {
        assert Demand(ls[1..], x) == 0 by { NoDemand(ls[1..], x); }
      }
    }
  }

  /** Lines that do not name a product ask nothing of it. */
  lemma {:induction false} NoDemand(ls: seq<Line>, x: Id)
    requires forall i :: 0 <= i < |ls| ==> ls[i].product != x
    ensures Demand(ls, x) == 0
    decreases |ls|
  {
    if ls != [] {
      NoDemand(ls[1..], x);
    }
  }

  /**
   * Two lines for one product each pass the check against the stock
   * before any decrement, so the second decrement is skipped: 3 in stock,
   * 2 + 2 asked, 1 left and the order accepted.
   */
  lemma DuplicateLinesSkipDecrement(p: Products.Product)
    requires p.stock == 3
    ensures var ps := map[7 := p];
      var ls := [NewLine(7, 2, 1.0), NewLine(7, 2, 1.0)];
      StockCheck(ps, ls, false).Ok? && Deduct(ps, ls)[7].stock == 1 && Demand(ls, 7) == 4
  {
    var ps := map[7 := p];
    var ls := [NewLine(7, 2, 1.0), NewLine(7, 2, 1.0)];
    var p1 := DeductOne(ps, ls[0]);
    assert p1[7].stock == 1;
    assert Deduct(p1, ls[1..]) == Deduct(DeductOne(p1, ls[1]), []);
  }

  const AcceptAdminMessage := "Unauthorized. Admin access required."

  /**
   * `acceptOrder`: admin only (403), an order id (400), an existing order
   * (404), Pending only (400), then the stock check over the passed lines
   * or the order's own; only then the decrements and the order write. A
   * failure of the stock check keeps its status, so a product deleted since
   * the order was placed fails the accept of its own lines with 500.
   */
  function AcceptOrder(shop: Shop, rq: AcceptRequest): (out: Outcome<Shop, Order>)
    ensures out.result.Err? ==> out.state == shop
    ensures out.state.orders.Keys == shop.orders.Keys && out.state.products.Keys == shop.products.Keys
    ensures out.state.carts == shop.carts && out.state.users == shop.users
    ensures rq.callerRole != AdminRole ==> out.result == Err(403, AcceptAdminMessage)
    ensures out.result.Ok? ==>
      rq.callerRole == AdminRole && rq.orderId.Some? && rq.orderId.value in shop.orders
      && shop.orders[rq.orderId.value].status == Pending
  {
    if rq.callerRole != AdminRole then Outcome(shop, Err(403, AcceptAdminMessage))
    else if rq.orderId.None? then Outcome(shop, Err(400, "Order ID is required"))
    else if rq.orderId.value !in shop.orders then Outcome(shop, Err(404, "Order not found."))
    else
      var o := shop.orders[rq.orderId.value];
      if o.status != Pending then Outcome(shop, Err(400, "Only pending orders can be accepted."))
      else
        var ls := rq.items.GetOr(o.items);
        var check := StockCheck(shop.products, ls, rq.items.None?);
        if check.Err? then Outcome(shop, Err(check.status, check.message))
        else
          var u := o.(status := rq.status.GetOr(Processing), items := ls,
                      shippingFee := rq.shippingFees.GetOr(o.shippingFee));
          Outcome(shop.(orders := shop.orders[rq.orderId.value := u],
                        products := Deduct(shop.products, ls)), Ok(u))
  }

  /**
   * An accepted order: every line had the stock it asks for before any
   * decrement, the products are the guarded decrements of those lines, the
   * status is the passed one or Processing, and the amount is not
   * recomputed even when the lines are replaced.
   */
  lemma AcceptAllOrNothing(shop: Shop, rq: AcceptRequest)
    requires rq.callerRole == AdminRole && rq.orderId.Some? && rq.orderId.value in shop.orders
    requires shop.orders[rq.orderId.value].status == Pending
    ensures var o := shop.orders[rq.orderId.value];
      var ls := rq.items.GetOr(o.items);
      var out := AcceptOrder(shop, rq);
      (out.result.Ok? <==> StockCheck(shop.products, ls, rq.items.None?).Ok?)
      && (out.result.Ok? ==>
            out.state.products == Deduct(shop.products, ls)
            && out.result.value.status == rq.status.GetOr(Processing)
            && out.result.value.items == ls
            && out.result.value.amount == o.amount
            && out.state.orders == shop.orders[rq.orderId.value := out.result.value])
      && (out.result.Err? ==> out.result.status == StockCheck(shop.products, ls, rq.items.None?).status)
  {
  }

  /**
   * Accepting an order on its own lines after the product of its first
   * line was deleted is a server error, not the "not found" a passed line
   * gets.
   */
  lemma DeletedProductFailsAccept(shop: Shop, rq: AcceptRequest)
    requires rq.callerRole == AdminRole && rq.orderId.Some? && rq.orderId.value in shop.orders
    requires shop.orders[rq.orderId.value].status == Pending
    requires rq.items.None?
    requires |shop.orders[rq.orderId.value].items| > 0 && shop.orders[rq.orderId.value].items[0].product !in shop.products
    ensures AcceptOrder(shop, rq) == Outcome(shop, Err(500, AcceptFailedMessage))
  {
    assert FirstUnfit(shop.products, shop.orders[rq.orderId.value].items, 0);
  }
}
