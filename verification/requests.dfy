/**
 * Refund and replacement requests (models/requestsModel.js,
 * controllers/requestController.js).
 *
 * A customer asks to refund or replace one line of an order, or every line
 * still untouched. The request document of (order, user) collects the
 * asks as items; the order line is flagged so that it cannot be asked for
 * again. An administrator approves or rejects an item; when no item is
 * pending any more the request is completed. Listings report a status
 * folded from the item statuses.
 */
module Requests {
  import opened Common
  import Helper
  import OrderHandlers

  type OrderStore = map<Id, OrderHandlers.Order>

  datatype Kind = Refund | Replacement

  function KindName(k: Kind): string
  {
    match k
    case Refund => "refund"
    case Replacement => "replacement"
  }

  /** The statuses of items and of requests, one vocabulary. */
  datatype Phase = Pending | Approved | Rejected | Processing | Completed | PartiallyCompleted

  function PhaseName(p: Phase): string
  {
    match p
    case Pending => "Pending"
    case Approved => "Approved"
    case Rejected => "Rejected"
    case Processing => "Processing"
    case Completed => "Completed"
    case PartiallyCompleted => "Partially_Completed"
  }

  /** The item status enum. */
  predicate ItemPhase(p: Phase)
  {
    !p.PartiallyCompleted?
  }

  /** The request status enum. */
  predicate RequestPhase(p: Phase)
  {
    !p.Approved?
  }

  /** `processed` stands for a set `processedAt`. */
  datatype Item = Item(product: Id, quantity: int, kind: Kind, price: real, status: Phase,
                       reason: Option<string>, notes: Option<string>, processed: bool)

  /** `completed` stands for a set `completedAt`. */
  datatype Request = Request(order: Id, user: Id, items: seq<Item>, status: Phase, completed: bool)

  type RequestStore = map<Id, Request>

  /** The two collections the handlers write. */
  datatype Books = Books(orders: OrderStore, requests: RequestStore)

  const UserMessage := "User ID is required"
  const IdsMessage := "Order ID and Product ID are required."
  const ServerError := "Internal server error."
  const OrderMissing := "Order not found."
  const LineMissing := "Product not found in this order."
  const RefundDuplicate := "Refund request already exists for this product in the order."
  const ReplacementDuplicate := "Replacement request already exists for this product in the order."
  const RefundOfReplaced := "This product has already been replaced and cannot be refunded."
  const ReplacementOfReplaced := "This product has already been replaced."
  const RefundOfRefunded := "This product has already been refunded."
  const ReplacementOfRefunded := "This product has already been refunded and cannot be replaced."

  // ---------------------------------------------------------------------
  // Virtuals and the status folds
  // ---------------------------------------------------------------------

  /** What one item or line is worth: price × quantity. */
  function Amount(price: real, quantity: int): real
  {
    price * quantity as real
  }

  /** The `totalAmount` virtual: Σ price × quantity, folded from the left. */
  function TotalAmount(items: seq<Item>): real
  {
    if items == [] then 0.0
    else TotalAmount(items[..|items| - 1]) + Amount(items[|items| - 1].price, items[|items| - 1].quantity)
  }

  lemma {:induction false} TotalAmountAppend(a: seq<Item>, b: seq<Item>)
    ensures TotalAmount(a + b) == TotalAmount(a) + TotalAmount(b)
    decreases |b|
  {
    if b == [] {
      assert a + b == a;
    } else {
      assert (a + b)[..|a + b| - 1] == a + b[..|b| - 1];
      TotalAmountAppend(a, b[..|b| - 1]);
    }
  }

  function Statuses(items: seq<Item>): (ps: seq<Phase>)
    ensures |ps| == |items|
    ensures forall i :: 0 <= i < |items| ==> ps[i] == items[i].status
  {
    seq(|items|, i requires 0 <= i < |items| => items[i].status)
  }

  /**
   * `getOrderLevelStatus` of the listings: any Pending, else any
   * Processing; when everything is Completed or Rejected, Completed for
   * only Completed, Partially_Completed for both and Rejected otherwise
   * (the empty list included); anything else is Partially_Completed.
   */
  function OrderLevelStatus(ps: seq<Phase>): (r: Phase)
    ensures r == Pending <==> Pending in ps
    ensures r == Processing <==> Processing in ps && Pending !in ps
    ensures r == Completed <==> ps != [] && forall i :: 0 <= i < |ps| ==> ps[i] == Completed
    ensures r == Rejected <==> forall i :: 0 <= i < |ps| ==> ps[i] == Rejected
    ensures RequestPhase(r)
  {
    assert ps != [] ==> ps[0] in ps;
    if Pending in ps then Pending
    else if Processing in ps then Processing
    else if forall i :: 0 <= i < |ps| ==> ps[i] == Completed || ps[i] == Rejected then
      // The set of statuses is {Completed} exactly when Rejected is absent.
      if Completed in ps && Rejected !in ps then Completed
      else if Completed in ps && Rejected in ps then PartiallyCompleted
      else Rejected
    else PartiallyCompleted
  }

  /**
   * The fold of the pre-save hook, which runs only on a non-empty item
   * list. It writes `overallStatus`, a path the schema does not declare,
   * so the result itself is dropped; only `completedAt` survives.
   */
  function PreSaveStatus(ps: seq<Phase>): Phase
    requires ps != []
  {
    if Pending in ps then Pending
    else if Processing in ps then Processing
    else if forall i :: 0 <= i < |ps| ==> ps[i] == Completed || ps[i] == Rejected then
      if Completed in ps then (if Rejected in ps then PartiallyCompleted else Completed)
      else Rejected
    else PartiallyCompleted
  }

  /** On a non-empty list the hook's fold and the listings' fold agree. */
  lemma StatusFoldsAgree(ps: seq<Phase>)
    requires ps != []
    ensures PreSaveStatus(ps) == OrderLevelStatus(ps)
  {
  }

  /** The pre-save hook: a request whose items are all Completed gets `completedAt`. */
  function PreSave(r: Request): (s: Request)
    ensures s.completed <==> r.completed || (r.items != [] && forall i :: 0 <= i < |r.items| ==> r.items[i].status == Completed)
    ensures s.(completed := r.completed) == r
  {
    if r.items == [] then r
    else
      StatusFoldsAgree(Statuses(r.items));
      if PreSaveStatus(Statuses(r.items)) == Completed then r.(completed := true) else r
  }

  // ---------------------------------------------------------------------
  // Finding lines and items by printed product id
  // ---------------------------------------------------------------------

  function LineIds(lines: seq<OrderHandlers.Line>): (ids: seq<Id>)
    ensures |ids| == |lines| && forall i :: 0 <= i < |lines| ==> ids[i] == lines[i].product
  {
    seq(|lines|, i requires 0 <= i < |lines| => lines[i].product)
  }

  function ItemIds(items: seq<Item>): (ids: seq<Id>)
    ensures |ids| == |items| && forall i :: 0 <= i < |items| ==> ids[i] == items[i].product
  {
    seq(|items|, i requires 0 <= i < |items| => items[i].product)
  }

  /** `order.items.find(item => item.product.toString() === productId)`. */
  function FirstLine(lines: seq<OrderHandlers.Line>, productId: string): (r: Option<nat>)
    ensures r.Some? ==> r.value < |lines| && Helper.IdString(lines[r.value].product) == productId
    ensures r.None? ==> forall j :: 0 <= j < |lines| ==> Helper.IdString(lines[j].product) != productId
  {
    Helper.FirstPrinted(LineIds(lines), productId)
  }

  /** `request.items.find(i => i.product.toString() === productId)`. */
  function FirstItem(items: seq<Item>, productId: string): (r: Option<nat>)
    ensures r.Some? ==> r.value < |items| && Helper.IdString(items[r.value].product) == productId
    ensures r.None? ==> forall j :: 0 <= j < |items| ==> Helper.IdString(items[j].product) != productId
  {
    Helper.FirstPrinted(ItemIds(items), productId)
  }

  // ---------------------------------------------------------------------
  // The request of (order, user)
  // ---------------------------------------------------------------------

  function HolderIds(rs: RequestStore, order: Id, user: Id): (g: set<Id>)
    ensures forall r :: r in g <==> r in rs && rs[r].order == order && rs[r].user == user
  {
    set r | r in rs && rs[r].order == order && rs[r].user == user
  }

  /** `Request.findOne({ order, user })`, read as the least such id. */
  function Holder(rs: RequestStore, order: Id, user: Id): (r: Option<Id>)
    ensures r.None? <==> HolderIds(rs, order, user) == {}
    ensures r.Some? ==> r.value in rs && rs[r.value].order == order && rs[r.value].user == user
  {
    if HolderIds(rs, order, user) == {} then None else Some(Least(HolderIds(rs, order, user)))
  }

  /** The request the new items go to: the holder, or a new one. */
  function Target(rs: RequestStore, order: Id, user: Id, newId: Id): Id
  {
    var h := Holder(rs, order, user);
    if h.Some? then h.value else newId
  }

  /**
   * Appends items to the request of (order, user), or creates it Pending
   * with them; either way the pre-save hook runs.
   */
  function File(rs: RequestStore, order: Id, user: Id, items: seq<Item>, newId: Id): (t: RequestStore)
    requires newId !in rs
    ensures var h := Target(rs, order, user, newId);
      t.Keys == rs.Keys + {h}
      && t[h].order == order && t[h].user == user
      && t[h].items == (if h in rs then rs[h].items else []) + items
      && t[h].status == (if h in rs then rs[h].status else Pending)
      && (forall x :: x in rs && x != h ==> t[x] == rs[x])
  {
    var h := Holder(rs, order, user);
    if h.Some? then
      var r := rs[h.value];
      rs[h.value := PreSave(r.(items := r.items + items))]
    else
      rs[newId := PreSave(Request(order, user, items, Pending, false))]
  }

  // ---------------------------------------------------------------------
  // The order lines' flags
  // ---------------------------------------------------------------------

  /** A line is still open: neither refunded nor replaced. */
  predicate Open(l: OrderHandlers.Line)
  {
    !l.refunded && !l.replaced
  }

  /** The flags after an ask of the given kind: exactly that one set. */
  function Flag(l: OrderHandlers.Line, k: Kind): (m: OrderHandlers.Line)
    ensures m.refunded <==> k == Refund
    ensures m.replaced <==> k == Replacement
    ensures m.(refunded := l.refunded, replaced := l.replaced) == l
  {
    match k
    case Refund => l.(refunded := true, replaced := false)
    case Replacement => l.(replaced := true, refunded := false)
  }

  /** No line is both refunded and replaced. */
  predicate Exclusive(os: OrderStore)
  {
    forall o, i :: o in os && 0 <= i < |os[o].items| ==> !(os[o].items[i].refunded && os[o].items[i].replaced)
  }

  // ---------------------------------------------------------------------
  // refundProduct and replaceProduct
  // ---------------------------------------------------------------------

  function HasProduct(items: seq<Item>, p: Id): bool
  {
    exists i :: 0 <= i < |items| && items[i].product == p
  }

  function HasKind(items: seq<Item>, k: Kind): bool
  {
    exists i :: 0 <= i < |items| && items[i].kind == k
  }

  /**
   * The duplicate query: a request of (order, user) with SOME item for the
   * product and SOME item of the kind, not necessarily the same item.
   */
  predicate Duplicate(rs: RequestStore, order: Id, user: Id, p: Id, k: Kind)
  {
    exists r :: r in rs && rs[r].order == order && rs[r].user == user && HasProduct(rs[r].items, p) && HasKind(rs[r].items, k)
  }

  function DuplicateMessage(k: Kind): string
  {
    match k
    case Refund => RefundDuplicate
    case Replacement => ReplacementDuplicate
  }

  function ReplacedMessage(k: Kind): string
  {
    match k
    case Refund => RefundOfReplaced
    case Replacement => ReplacementOfReplaced
  }

  function RefundedMessage(k: Kind): string
  {
    match k
    case Refund => RefundOfRefunded
    case Replacement => ReplacementOfRefunded
  }

  /** An ask for one line: who asks, for which order and product. */
  datatype Ask = Ask(kind: Kind, user: Option<Id>, orderId: string, productId: string, reason: Option<string>)

  /**
   * The checks of `refundProduct` / `replaceProduct`, in source order. An
   * id string that is not an ObjectId makes the duplicate query throw.
   * On success: the order, the product and the index of its first line.
   */
  function AskChecks(b: Books, a: Ask): (r: Result<(Id, Id, nat)>)
    ensures r.Ok? ==>
      a.user.Some? && Helper.GetMongoId(Some(a.orderId)) == Some(r.value.0)
      && Helper.GetMongoId(Some(a.productId)) == Some(r.value.1)
      && !Duplicate(b.requests, r.value.0, a.user.value, r.value.1, a.kind)
      && r.value.0 in b.orders && FirstLine(b.orders[r.value.0].items, a.productId) == Some(r.value.2)
      && Open(b.orders[r.value.0].items[r.value.2])
      && b.orders[r.value.0].items[r.value.2].quantity >= 1
  {
    if a.user.None? then Err(400, UserMessage)
    else if a.orderId == "" || a.productId == "" then Err(400, IdsMessage)
    else
      var oid := Helper.GetMongoId(Some(a.orderId));
      var pid := Helper.GetMongoId(Some(a.productId));
      if oid.None? || pid.None? then Err(500, ServerError)
      else if Duplicate(b.requests, oid.value, a.user.value, pid.value, a.kind) then Err(400, DuplicateMessage(a.kind))
      else if oid.value !in b.orders then Err(404, OrderMissing)
      else
        var found := FirstLine(b.orders[oid.value].items, a.productId);
        if found.None? then Err(404, LineMissing)
        else
          var l := b.orders[oid.value].items[found.value];
          if l.replaced then Err(400, ReplacedMessage(a.kind))
          else if l.refunded then Err(400, RefundedMessage(a.kind))
          // The request item's `quantity` validator (min 1).
          else if l.quantity < 1 then Err(500, ServerError)
          else Ok((oid.value, pid.value, found.value))
  }

  /**
   * The item an ask files: the line's quantity and price, Pending, reason
   * `reason || ""` as the schema's `trim` setter stores it.
   */
  function AskedItem(a: Ask, p: Id, l: OrderHandlers.Line): Item
  {
    Item(p, l.quantity, a.kind, l.price, Pending, Some(StoredReason(a.reason.GetOr(""))), None, false)
  }

  /** The order after its line `i` is flagged. */
  function FlagLine(os: OrderStore, o: Id, i: nat, k: Kind): (t: OrderStore)
    requires o in os && i < |os[o].items|
    ensures t.Keys == os.Keys
    ensures forall x :: x in os && x != o ==> t[x] == os[x]
    ensures t[o] == os[o].(items := os[o].items[i := Flag(os[o].items[i], k)])
  {
    os[o := os[o].(items := os[o].items[i := Flag(os[o].items[i], k)])]
  }

  /** The stores after a successful ask. */
  function AskApply(b: Books, a: Ask, o: Id, p: Id, i: nat, newId: Id): Books
    requires newId !in b.requests && a.user.Some? && o in b.orders && i < |b.orders[o].items|
  {
    Books(FlagLine(b.orders, o, i, a.kind),
          File(b.requests, o, a.user.value, [AskedItem(a, p, b.orders[o].items[i])], newId))
  }

  /**
   * `refundProduct` (kind Refund) and `replaceProduct` (kind Replacement).
   * The reply carries the id of the request the item was filed in.
   */
  function AskForLine(b: Books, a: Ask, newId: Id): (out: Outcome<Books, Id>)
    requires newId !in b.requests
    ensures out.result.Err? <==> AskChecks(b, a).Err?
    ensures out.result.Err? ==> out.state == b && out.result == Err(AskChecks(b, a).status, AskChecks(b, a).message)
  {
    var checks := AskChecks(b, a);
    if checks.Err? then Outcome(b, Err(checks.status, checks.message))
    else
      var (o, p, i) := checks.value;
      Outcome(AskApply(b, a, o, p, i, newId), Ok(Target(b.requests, o, a.user.value, newId)))
  }

  lemma AskOkState(b: Books, a: Ask, newId: Id, o: Id, p: Id, i: nat)
    requires newId !in b.requests && AskChecks(b, a) == Ok((o, p, i))
    ensures AskForLine(b, a, newId) == Outcome(AskApply(b, a, o, p, i, newId), Ok(Target(b.requests, o, a.user.value, newId)))
  {
  }

  /** Filing one item appends it to the target request and adds its amount to the total. */
  lemma FileOneItem(rs: RequestStore, o: Id, user: Id, item: Item, newId: Id)
    requires newId !in rs
    ensures var h := Target(rs, o, user, newId);
      var before := if h in rs then rs[h].items else [];
      File(rs, o, user, [item], newId)[h].items == before + [item]
      && TotalAmount(File(rs, o, user, [item], newId)[h].items) == TotalAmount(before) + Amount(item.price, item.quantity)
  {
    var h := Target(rs, o, user, newId);
    var before := if h in rs then rs[h].items else [];
    var t := File(rs, o, user, [item], newId);
    assert t[h].items == before + [item];
    TotalAmountSnoc(before, item);
  }

  lemma TotalAmountSnoc(items: seq<Item>, item: Item)
    ensures TotalAmount(items + [item]) == TotalAmount(items) + Amount(item.price, item.quantity)
  {
    assert (items + [item])[..|items|] == items;
  }

  /**
   * A successful ask flags exactly the first line of the product for its
   * kind and leaves every other line and order alone.
   */
  lemma AskFlagsLine(b: Books, a: Ask, newId: Id, o: Id, p: Id, i: nat)
    requires newId !in b.requests && AskChecks(b, a) == Ok((o, p, i))
    ensures var after := AskForLine(b, a, newId).state.orders;
      after.Keys == b.orders.Keys
      && (forall x :: x in b.orders && x != o ==> after[x] == b.orders[x])
      && after[o].items == b.orders[o].items[i := Flag(b.orders[o].items[i], a.kind)]
  {
    AskOkState(b, a, newId, o, p, i);
  }

  /**
   * A successful ask files one Pending item with the line's quantity and
   * price in the request of (order, user), so its total grows by the
   * line's price × quantity.
   */
  lemma AskFilesItem(b: Books, a: Ask, newId: Id, o: Id, p: Id, i: nat)
    requires newId !in b.requests && AskChecks(b, a) == Ok((o, p, i))
    ensures var l := b.orders[o].items[i];
      var out := AskForLine(b, a, newId);
      var h := Target(b.requests, o, a.user.value, newId);
      var before := if h in b.requests then b.requests[h].items else [];
      out.result == Ok(h)
      && out.state.requests[h].items == before + [AskedItem(a, p, l)]
      && TotalAmount(out.state.requests[h].items) == TotalAmount(before) + Amount(l.price, l.quantity)
  {
    AskOkState(b, a, newId, o, p, i);
    var item := AskedItem(a, p, b.orders[o].items[i]);
    FileOneItem(b.requests, o, a.user.value, item, newId);
  }

  /** Flagging a line for one kind keeps every line flagged at most once. */
  lemma FlagKeepsExclusive(os: OrderStore, o: Id, i: nat, k: Kind)
    requires Exclusive(os) && o in os && i < |os[o].items|
    ensures Exclusive(FlagLine(os, o, i, k))
  {
    var t := FlagLine(os, o, i, k);
    forall x, j | x in t && 0 <= j < |t[x].items|
      ensures !(t[x].items[j].refunded && t[x].items[j].replaced)
    {
      if x != o || j != i {
        assert t[x].items[j] == os[x].items[j];
      }
    }
  }

  /** No ask ever leaves a line both refunded and replaced. */
  lemma AskKeepsExclusive(b: Books, a: Ask, newId: Id)
    requires newId !in b.requests && Exclusive(b.orders)
    ensures Exclusive(AskForLine(b, a, newId).state.orders)
  {
    var checks := AskChecks(b, a);
    if checks.Ok? {
      var (o, p, i) := checks.value;
      AskOkState(b, a, newId, o, p, i);
      FlagKeepsExclusive(b.orders, o, i, a.kind);
    }
  }

  /** Flagging a line keeps where the first line of each product is. */
  lemma FlagKeepsFirstLine(lines: seq<OrderHandlers.Line>, i: nat, k: Kind, productId: string)
    requires i < |lines|
    ensures FirstLine(lines[i := Flag(lines[i], k)], productId) == FirstLine(lines, productId)
  {
    assert LineIds(lines[i := Flag(lines[i], k)]) == LineIds(lines);
  }

  /**
   * After a successful ask, asking again for the same product of the same
   * order, for either kind, is refused with 400.
   */
  lemma AskOnlyOnce(b: Books, a: Ask, newId: Id, o: Id, p: Id, i: nat, again: Ask, newId2: Id)
    requires newId !in b.requests && AskChecks(b, a) == Ok((o, p, i))
    requires again.user == a.user && again.orderId == a.orderId && again.productId == a.productId
    requires newId2 !in AskForLine(b, a, newId).state.requests
    ensures AskForLine(AskForLine(b, a, newId).state, again, newId2).result.Err?
    ensures AskForLine(AskForLine(b, a, newId).state, again, newId2).result.status == 400
  {
    AskOkState(b, a, newId, o, p, i);
    var after := AskApply(b, a, o, p, i, newId);
    FlagKeepsFirstLine(b.orders[o].items, i, a.kind, a.productId);
    FlaggedLineRefused(after, again, o, p, i);
  }

  /** An ask whose first line of the product is flagged is refused with 400. */
  lemma FlaggedLineRefused(b: Books, a: Ask, o: Id, p: Id, i: nat)
    requires a.user.Some? && a.orderId != "" && a.productId != ""
    requires Helper.GetMongoId(Some(a.orderId)) == Some(o) && Helper.GetMongoId(Some(a.productId)) == Some(p)
    requires o in b.orders && FirstLine(b.orders[o].items, a.productId) == Some(i)
    requires !Open(b.orders[o].items[i])
    ensures AskChecks(b, a).Err? && AskChecks(b, a).status == 400
  {
  }

  /**
   * The duplicate query runs before the order is read: a matching request
   * refuses the ask with 400 whatever the order holds, even when its
   * product item and its item of that kind are different items.
   */
  lemma DuplicateRefusesFirst(b: Books, a: Ask, newId: Id, o: Id, p: Id)
    requires newId !in b.requests && a.user.Some?
    requires Helper.GetMongoId(Some(a.orderId)) == Some(o) && Helper.GetMongoId(Some(a.productId)) == Some(p)
    requires Duplicate(b.requests, o, a.user.value, p, a.kind)
    ensures AskForLine(b, a, newId) == Outcome(b, Err(400, DuplicateMessage(a.kind)))
  {
  }

  /**
   * A completed request that receives a new item stays Completed, while
   * the listings fold its items to Pending.
   */
  lemma CompletedRequestStaysCompleted(b: Books, a: Ask, newId: Id, o: Id, p: Id, i: nat)
    requires newId !in b.requests && AskChecks(b, a) == Ok((o, p, i))
    requires var h := Holder(b.requests, o, a.user.value);
      h.Some? && b.requests[h.value].status == Completed
    ensures var h := AskForLine(b, a, newId).result.value;
      var r := AskForLine(b, a, newId).state.requests[h];
      r.status == Completed && OrderLevelStatus(Statuses(r.items)) == Pending
  {
    AskOkState(b, a, newId, o, p, i);
    var h := Target(b.requests, o, a.user.value, newId);
    var r := AskApply(b, a, o, p, i, newId).requests[h];
    assert Statuses(r.items)[|r.items| - 1] == Pending;
  }

  // ---------------------------------------------------------------------
  // refundOrder and replaceOrder
  // ---------------------------------------------------------------------

  /** The lines still open, in order. */
  function OpenLines(lines: seq<OrderHandlers.Line>): (r: seq<OrderHandlers.Line>)
    ensures |r| <= |lines|
    ensures forall i :: 0 <= i < |r| ==> Open(r[i]) && r[i] in lines
    ensures forall i :: 0 <= i < |lines| && Open(lines[i]) ==> lines[i] in r
  {
    if lines == [] then []
    else
      var init := OpenLines(lines[..|lines| - 1]);
      assert forall i :: 0 <= i < |lines| - 1 ==> lines[i] == lines[..|lines| - 1][i];
      if Open(lines[|lines| - 1]) then init + [lines[|lines| - 1]] else init
  }

  /** Every open line flagged for the kind; the others as they were. */
  function FlagOpen(lines: seq<OrderHandlers.Line>, k: Kind): (r: seq<OrderHandlers.Line>)
    ensures |r| == |lines|
    ensures forall i :: 0 <= i < |lines| ==> r[i] == (if Open(lines[i]) then Flag(lines[i], k) else lines[i])
  {
    seq(|lines|, i requires 0 <= i < |lines| => if Open(lines[i]) then Flag(lines[i], k) else lines[i])
  }

  /** The items filed for the open lines: same product, quantity and price, Pending, no reason. */
  function OrderItems(open: seq<OrderHandlers.Line>, k: Kind): (r: seq<Item>)
    ensures |r| == |open|
    ensures forall i :: 0 <= i < |open| ==>
      r[i] == Item(open[i].product, open[i].quantity, k, open[i].price, Pending, None, None, false)
  {
    seq(|open|, i requires 0 <= i < |open| =>
      Item(open[i].product, open[i].quantity, k, open[i].price, Pending, None, None, false))
  }

  function NoneOpenMessage(k: Kind): string
  {
    match k
    case Refund => "No refundable items found (already refunded or replaced)."
    case Replacement => "No replaceable items found (already refunded or replaced)."
  }

  /**
   * `refundOrder` / `replaceOrder`: every open line of the order is asked
   * for at once. The caller's id is a parameter.
   */
  function AskForOrder(b: Books, k: Kind, user: Id, orderId: string, newId: Id): (out: Outcome<Books, Id>)
    requires newId !in b.requests
    ensures out.result.Err? ==> out.state == b
    ensures orderId == "" ==> out.result == Err(400, "Order ID is required.")
    ensures out.result.Ok? <==>
      var o := Helper.GetMongoId(Some(orderId));
      o.Some? && o.value in b.orders && OpenLines(b.orders[o.value].items) != []
      && forall i :: 0 <= i < |OpenLines(b.orders[o.value].items)| ==> OpenLines(b.orders[o.value].items)[i].quantity >= 1
    ensures out.result.Ok? ==>
      var o := Helper.GetMongoId(Some(orderId)).value;
      var lines := b.orders[o].items;
      out.result.value == Target(b.requests, o, user, newId)
      && out.state.orders == b.orders[o := b.orders[o].(items := FlagOpen(lines, k))]
      && out.state.requests == File(b.requests, o, user, OrderItems(OpenLines(lines), k), newId)
  {
    if orderId == "" then Outcome(b, Err(400, "Order ID is required."))
    else
      var o := Helper.GetMongoId(Some(orderId));
      if o.None? then Outcome(b, Err(500, ServerError))
      else if o.value !in b.orders then Outcome(b, Err(404, OrderMissing))
      else
        var lines := b.orders[o.value].items;
        var open := OpenLines(lines);
        if open == [] then Outcome(b, Err(400, NoneOpenMessage(k)))
        else if exists i :: 0 <= i < |open| && open[i].quantity < 1 then Outcome(b, Err(500, ServerError))
        else
          var orders := b.orders[o.value := b.orders[o.value].(items := FlagOpen(lines, k))];
          var requests := File(b.requests, o.value, user, OrderItems(open, k), newId);
          Outcome(Books(orders, requests), Ok(Target(b.requests, o.value, user, newId)))
  }

  /** Flagging every open line leaves none open and touches no other line. */
  lemma FlagOpenCloses(lines: seq<OrderHandlers.Line>, k: Kind)
    ensures OpenLines(FlagOpen(lines, k)) == []
    ensures forall i :: 0 <= i < |lines| && !(lines[i].refunded && lines[i].replaced) ==>
      !(FlagOpen(lines, k)[i].refunded && FlagOpen(lines, k)[i].replaced)
  {
    NoneOpen(FlagOpen(lines, k));
  }

  lemma {:induction false} NoneOpen(lines: seq<OrderHandlers.Line>)
    requires forall i :: 0 <= i < |lines| ==> !Open(lines[i])
    ensures OpenLines(lines) == []
    decreases |lines|
  {
    if lines != [] {
      NoneOpen(lines[..|lines| - 1]);
    }
  }

  /**
   * After asking for a whole order, every line that was open carries the
   * kind's flag, every other line is unchanged, and no line is open.
   */
  lemma AskForOrderCloses(b: Books, k: Kind, user: Id, orderId: string, newId: Id)
    requires newId !in b.requests && AskForOrder(b, k, user, orderId, newId).result.Ok?
    ensures var o := Helper.GetMongoId(Some(orderId)).value;
      var before := b.orders[o].items;
      var after := AskForOrder(b, k, user, orderId, newId).state.orders[o].items;
      |after| == |before|
      && OpenLines(after) == []
      && (forall i :: 0 <= i < |before| && !Open(before[i]) ==> after[i] == before[i])
      && (forall i :: 0 <= i < |before| && Open(before[i]) ==> after[i] == Flag(before[i], k))
  {
    var o := Helper.GetMongoId(Some(orderId)).value;
    FlagOpenCloses(b.orders[o].items, k);
  }

  /** Asking for a whole order keeps every line flagged at most once. */
  lemma AskForOrderKeepsExclusive(b: Books, k: Kind, user: Id, orderId: string, newId: Id)
    requires newId !in b.requests && Exclusive(b.orders)
    ensures Exclusive(AskForOrder(b, k, user, orderId, newId).state.orders)
  {
    var t := AskForOrder(b, k, user, orderId, newId).state.orders;
    if AskForOrder(b, k, user, orderId, newId).result.Ok? {
      var o := Helper.GetMongoId(Some(orderId)).value;
      FlagOpenCloses(b.orders[o].items, k);
      forall x, j | x in t && 0 <= j < |t[x].items|
        ensures !(t[x].items[j].refunded && t[x].items[j].replaced)
      {
        if x != o {
          assert t[x] == b.orders[x];
        }
      }
    }
  }

  /** Asking for the same order again finds nothing open: 400. */
  lemma AskForOrderOnlyOnce(b: Books, k: Kind, user: Id, orderId: string, newId: Id, k2: Kind, newId2: Id)
    requires newId !in b.requests && AskForOrder(b, k, user, orderId, newId).result.Ok?
    requires newId2 !in AskForOrder(b, k, user, orderId, newId).state.requests
    ensures AskForOrder(AskForOrder(b, k, user, orderId, newId).state, k2, user, orderId, newId2).result
      == Err(400, NoneOpenMessage(k2))
  {
    AskForOrderCloses(b, k, user, orderId, newId);
  }

  // ---------------------------------------------------------------------
  // acceptRequest and rejectRequest
  // ---------------------------------------------------------------------

  datatype Decision = Accept | Reject(reason: Option<string>)

  /**
   * A reason as the schema's `trim` setter stores it: trimmed, unchanged
   * when already trimmed, and empty when blank.
   */
  function StoredReason(text: string): (s: string)
    ensures Trimmed(s)
    ensures Trimmed(text) ==> s == text
    ensures s == [] <==> AllSpace(text)
  {
    TrimmedIsFixpoint(text);
    TrimEmptyIffBlank(text);
    Trim(text)
  }

  /**
   * The decided item: Approved, or Rejected with the reason overwritten by
   * the one sent, which the schema's `trim` setter stores trimmed; a
   * rejection without a reason clears it.
   */
  function Decided(it: Item, d: Decision): (r: Item)
    ensures r.processed && r.product == it.product && r.kind == it.kind
    ensures r.quantity == it.quantity && r.price == it.price
    ensures d.Accept? ==> r.status == Approved && r.reason == it.reason
    ensures d.Reject? ==> r.status == Rejected
    ensures d.Reject? && d.reason.None? ==> r.reason.None?
    ensures d.Reject? && d.reason.Some? ==> r.reason == Some(StoredReason(d.reason.value))
  {
    match d
    case Accept => it.(status := Approved, processed := true)
    case Reject(None) => it.(status := Rejected, reason := None, processed := true)
    case Reject(Some(text)) => it.(status := Rejected, reason := Some(StoredReason(text)), processed := true)
  }

  predicate NonePending(items: seq<Item>)
  {
    forall j :: 0 <= j < |items| ==> items[j].status != Pending
  }

  /** The request after item `i` is decided; with nothing pending it is Completed. */
  function Settle(r: Request, i: nat, d: Decision): (s: Request)
    requires i < |r.items|
    ensures s.items == r.items[i := Decided(r.items[i], d)]
    ensures s.order == r.order && s.user == r.user
    ensures NonePending(s.items) ==> s.status == Completed && s.completed
    ensures !NonePending(s.items) ==> s.status == r.status
  {
    var items := r.items[i := Decided(r.items[i], d)];
    if NonePending(items) then PreSave(r.(items := items, status := Completed, completed := true))
    else PreSave(r.(items := items))
  }

  /**
   * `acceptRequest` / `rejectRequest`: the first item of the product must
   * be Pending; it is decided and the request is completed once nothing is
   * pending. Both handlers require the two ids; rejecting does not require
   * a reason.
   */
  function Decide(rs: RequestStore, requestId: string, productId: string, d: Decision): (out: Outcome<RequestStore, Request>)
    ensures out.result.Err? ==> out.state == rs
    ensures out.result.Ok? <==>
      var h := Helper.GetMongoId(Some(requestId));
      productId != "" && h.Some? && h.value in rs
      && FirstItem(rs[h.value].items, productId).Some?
      && rs[h.value].items[FirstItem(rs[h.value].items, productId).value].status == Pending
    ensures out.result.Ok? ==>
      var h := Helper.GetMongoId(Some(requestId)).value;
      var i := FirstItem(rs[h].items, productId).value;
      out.state == rs[h := Settle(rs[h], i, d)] && out.result.value == out.state[h]
  {
    if requestId == "" || productId == "" then Outcome(rs, Err(400, DecideIdsMessage(d)))
    else
      var h := Helper.GetMongoId(Some(requestId));
      if h.None? then Outcome(rs, Err(500, ServerError))
      else if h.value !in rs then Outcome(rs, Err(404, "Request not found."))
      else
        var r := rs[h.value];
        var i := FirstItem(r.items, productId);
        if i.None? then Outcome(rs, Err(404, "Product not found in the request."))
        else if r.items[i.value].status != Pending then
          Outcome(rs, Err(400, "Item is already " + PhaseName(r.items[i.value].status) + "."))
        else
          var s := Settle(r, i.value, d);
          Outcome(rs[h.value := s], Ok(s))
  }

  function DecideIdsMessage(d: Decision): string
  {
    match d
    case Accept => "Both requestId and productId are required."
    case Reject(_) => "requestId, productId, and reason are required."
  }

  /**
   * Deciding changes one item of one request. The request is Completed
   * after the decision exactly when no item is pending any more (or it
   * already was Completed).
   */
  lemma DecideEffect(rs: RequestStore, requestId: string, productId: string, d: Decision)
    requires Decide(rs, requestId, productId, d).result.Ok?
    ensures var h := Helper.GetMongoId(Some(requestId)).value;
      var before := rs[h];
      var after := Decide(rs, requestId, productId, d).state[h];
      |after.items| == |before.items|
      && (forall j :: 0 <= j < |before.items| && Helper.IdString(before.items[j].product) != productId ==>
            after.items[j] == before.items[j])
      && (after.status == Completed <==> NonePending(after.items) || before.status == Completed)
  {
  }

  /**
   * Only the first item of a product can be decided: once it is decided,
   * a later item of the same product, still Pending, is refused with 400.
   */
  lemma LaterItemShadowed(rs: RequestStore, requestId: string, productId: string, d: Decision, j: nat)
    requires Decide(rs, requestId, productId, d).result.Ok?
    requires var h := Helper.GetMongoId(Some(requestId)).value;
      j < |rs[h].items| && j != FirstItem(rs[h].items, productId).value
      && Helper.IdString(rs[h].items[j].product) == productId && rs[h].items[j].status == Pending
    ensures var after := Decide(rs, requestId, productId, d).state;
      var again := Decide(after, requestId, productId, d).result;
      again.Err? && again.status == 400
    ensures var h := Helper.GetMongoId(Some(requestId)).value;
      Decide(rs, requestId, productId, d).state[h].items[j].status == Pending
  {
    var h := Helper.GetMongoId(Some(requestId)).value;
    var i := FirstItem(rs[h].items, productId).value;
    var after := Decide(rs, requestId, productId, d).state;
    assert FirstItem(after[h].items, productId) == Some(i) by {
      FirstItemAfterUpdate(rs[h].items, i, Decided(rs[h].items[i], d), productId);
    }
  }

  /** Replacing an item by one of the same product keeps the first match. */
  lemma FirstItemAfterUpdate(items: seq<Item>, i: nat, it: Item, productId: string)
    requires i < |items| && it.product == items[i].product
    ensures FirstItem(items[i := it], productId) == FirstItem(items, productId)
  {
    assert ItemIds(items[i := it]) == ItemIds(items);
  }

  // ---------------------------------------------------------------------
  // updateItemStatus
  // ---------------------------------------------------------------------

  /**
   * The model's `updateItemStatus`: sets the item's status, its notes only
   * when some are given, and marks it processed for Completed or Rejected;
   * an unknown item throws. Saving runs the validators and the hook.
   */
  function UpdateItemStatus(r: Request, at: nat, status: Phase, notes: Option<string>): (s: Result<Request>)
    ensures s.Ok? <==> at < |r.items| && ItemPhase(status)
    ensures s.Ok? ==>
      var it := r.items[at];
      |s.value.items| == |r.items|
      && (forall j :: 0 <= j < |r.items| && j != at ==> s.value.items[j] == r.items[j])
      && s.value.items[at].status == status
      && s.value.items[at].notes == (if notes.Some? && notes.value != "" then notes else it.notes)
      && (s.value.items[at].processed <==> it.processed || status == Completed || status == Rejected)
      && (s.value.completed <==> r.completed || forall j :: 0 <= j < |r.items| ==> s.value.items[j].status == Completed)
  {
    if at >= |r.items| then Err(500, "Item not found")
    else if !ItemPhase(status) then Err(500, ServerError)
    else
      var it := r.items[at];
      var notes2 := if notes.Some? && notes.value != "" then notes else it.notes;
      var it2 := it.(status := status, notes := notes2, processed := it.processed || status == Completed || status == Rejected);
      Ok(PreSave(r.(items := r.items[at := it2])))
  }
}
