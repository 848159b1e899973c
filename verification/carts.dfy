/**
 * Carts (models/cartModel.js, controllers/cartController.js).
 *
 * A user's cart is the one document with their `userId` and `isActive`
 * true. The handlers read it with the caller's tier prices, replace its
 * lines, add to or remove from it, and clear it. Lines are matched to a
 * request's product id by comparing the stored id's printed form with the
 * request string.
 */
module Carts {
  import opened Common
  import Pricing
  import Products
  import Helper

  datatype CartLine = CartLine(product: Id, quantity: int)
  datatype Cart = Cart(owner: Id, items: seq<CartLine>, isActive: bool)

  type CartStore = map<Id, Cart>

  // ---------------------------------------------------------------------
  // The active cart
  // ---------------------------------------------------------------------

  /** The active carts of a user. */
  function ActiveOf(cs: CartStore, user: Id): (g: set<Id>)
    ensures forall c :: c in g <==> c in cs && cs[c].owner == user && cs[c].isActive
  {
    set c | c in cs && cs[c].owner == user && cs[c].isActive
  }

  /**
   * `findOne({ userId, isActive: true })`. The store keeps at most one such
   * cart (see `OneActive`); should there be several, the model reads the
   * one with the least id.
   */
  function ActiveCart(cs: CartStore, user: Id): (r: Option<Id>)
    ensures r.None? <==> ActiveOf(cs, user) == {}
    ensures r.Some? ==> r.value in cs && cs[r.value].owner == user && cs[r.value].isActive
  {
    if ActiveOf(cs, user) == {} then None else Some(Least(ActiveOf(cs, user)))
  }

  /** No user has two active carts. */
  predicate OneActive(cs: CartStore)
  {
    forall c, d :: c in cs && d in cs && cs[c].isActive && cs[d].isActive && cs[c].owner == cs[d].owner ==> c == d
  }

  /** With one active cart per user, the active cart is the only one. */
  lemma ActiveCartUnique(cs: CartStore, user: Id, c: Id)
    requires OneActive(cs) && c in cs && cs[c].owner == user && cs[c].isActive
    ensures ActiveCart(cs, user) == Some(c)
  {
  }

  /** A write to the items of a user's active cart keeps one active cart per user. */
  lemma ItemsWriteKeepsOneActive(cs: CartStore, c: Id, items: seq<CartLine>)
    requires OneActive(cs) && c in cs
    ensures OneActive(cs[c := cs[c].(items := items)])
  {
    var t := cs[c := cs[c].(items := items)];
    forall x, y | x in t && y in t && t[x].isActive && t[y].isActive && t[x].owner == t[y].owner
      ensures x == y
    {
      assert cs[x].isActive && cs[y].isActive && cs[x].owner == cs[y].owner;
    }
  }

  /** Creating an active cart for a user without one keeps one active cart per user. */
  lemma CreateKeepsOneActive(cs: CartStore, user: Id, newId: Id, items: seq<CartLine>)
    requires OneActive(cs) && newId !in cs && ActiveCart(cs, user).None?
    ensures OneActive(cs[newId := Cart(user, items, true)])
  {
    var t := cs[newId := Cart(user, items, true)];
    forall x, y | x in t && y in t && t[x].isActive && t[y].isActive && t[x].owner == t[y].owner
      ensures x == y
    {
      if x != newId && y == newId {
        assert false;
      } else if x == newId && y != newId {
        assert false;
      }
    }
  }

  // ---------------------------------------------------------------------
  // Prices and totals
  // ---------------------------------------------------------------------

  /** The cart price of a product: `pricing[tier]?.price ?? price ?? 0`. */
  function UnitPrice(p: Products.Product, t: Pricing.Tier): (r: real)
    ensures t in p.pricing ==> r == p.pricing[t]
    ensures t !in p.pricing ==> r == p.price
  {
    Pricing.CartPrice(Pricing.Priced(Some(p.price), p.pricing), t)
  }

  /** A line of the cart view: priced, or reported with "Product not found". */
  datatype ViewLine = PricedLine(product: Id, quantity: int, price: real) | MissingLine(quantity: int)

  /** What a line adds to the total: nothing for a missing product. */
  function LineTotal(v: ViewLine): real
  {
    match v
    case PricedLine(_, q, price) => q as real * price
    case MissingLine(_) => 0.0
  }

  /** One line of the view: the product's tier price, or "Product not found". */
  function ViewOf(ps: Products.Store, l: CartLine, t: Pricing.Tier): (v: ViewLine)
    ensures v.MissingLine? <==> l.product !in ps
    ensures v.quantity == l.quantity
    ensures v.PricedLine? ==> v.product == l.product && v.price == UnitPrice(ps[l.product], t)
    ensures LineTotal(v) == if l.product in ps then l.quantity as real * UnitPrice(ps[l.product], t) else 0.0
  {
    if l.product in ps then PricedLine(l.product, l.quantity, UnitPrice(ps[l.product], t))
    else MissingLine(l.quantity)
  }

  function View(ps: Products.Store, items: seq<CartLine>, t: Pricing.Tier): (vs: seq<ViewLine>)
    ensures |vs| == |items|
    ensures forall i :: 0 <= i < |items| ==> vs[i] == ViewOf(ps, items[i], t)
  {
    seq(|items|, i requires 0 <= i < |items| => ViewOf(ps, items[i], t))
  }

  /** The sum of the line totals. */
  function Total(vs: seq<ViewLine>): real
  {
    if vs == [] then 0.0 else LineTotal(vs[0]) + Total(vs[1..])
  }

  /**
   * The running total of `getCart`: each line whose product exists adds
   * quantity × price as the loop meets it.
   */
  function GrandTotal(ps: Products.Store, items: seq<CartLine>, t: Pricing.Tier): real
  {
    if items == [] then 0.0
    else
      var last := items[|items| - 1];
      GrandTotal(ps, items[..|items| - 1], t)
      + (if last.product in ps then last.quantity as real * UnitPrice(ps[last.product], t) else 0.0)
  }

  lemma {:induction false} TotalAppend(a: seq<ViewLine>, b: seq<ViewLine>)
    ensures Total(a + b) == Total(a) + Total(b)
    decreases |a|
  {
    if a != [] {
      assert (a + b)[1..] == a[1..] + b;
      TotalAppend(a[1..], b);
    } else {
      assert a + b == b;
    }
  }

  /** The running total is the sum of the line totals of the view. */
  lemma {:induction false} GrandTotalIsViewTotal(ps: Products.Store, items: seq<CartLine>, t: Pricing.Tier)
    ensures GrandTotal(ps, items, t) == Total(View(ps, items, t))
    decreases |items|
  {
    if items != [] {
      var init := items[..|items| - 1];
      var last := items[|items| - 1];
      GrandTotalIsViewTotal(ps, init, t);
      assert View(ps, items, t) == View(ps, init, t) + [ViewOf(ps, last, t)];
      TotalAppend(View(ps, init, t), [ViewOf(ps, last, t)]);
      assert Total([ViewOf(ps, last, t)]) == LineTotal(ViewOf(ps, last, t));
    }
  }

  /** The lines whose product exists. */
  function Present(ps: Products.Store, items: seq<CartLine>): (r: seq<CartLine>)
    ensures forall i :: 0 <= i < |r| ==> r[i].product in ps
    ensures |r| <= |items|
  {
    if items == [] then []
    else
      var init := Present(ps, items[..|items| - 1]);
      if items[|items| - 1].product in ps then init + [items[|items| - 1]] else init
  }

  /** Lines of missing products add nothing: the total is that of the present lines. */
  lemma {:induction false} MissingLinesAddNothing(ps: Products.Store, items: seq<CartLine>, t: Pricing.Tier)
    ensures GrandTotal(ps, items, t) == GrandTotal(ps, Present(ps, items), t)
    decreases |items|
  {
    if items != [] {
      var init := items[..|items| - 1];
      MissingLinesAddNothing(ps, init, t);
      var p := Present(ps, init);
      if items[|items| - 1].product in ps {
        assert (p + [items[|items| - 1]])[..|p|] == p;
      }
    }
  }

  // ---------------------------------------------------------------------
  // getCart
  // ---------------------------------------------------------------------

  datatype CartView = CartView(items: seq<ViewLine>, grandTotal: real)

  const UserMessage := "User ID is required"

  /**
   * `getCart`: the caller's active cart at their tier's cart prices. No
   * active cart, or one without lines, is an empty view with total 0.
   */
  function GetCart(cs: CartStore, ps: Products.Store, user: Option<Id>, role: Option<string>): (r: Result<CartView>)
    ensures r.Err? <==> user.None?
    ensures r.Err? ==> r.status == 400
    ensures r.Ok? && (ActiveCart(cs, user.value).None? || cs[ActiveCart(cs, user.value).value].items == []) ==>
      r.value == CartView([], 0.0)
    ensures r.Ok? && ActiveCart(cs, user.value).Some? ==>
      var items := cs[ActiveCart(cs, user.value).value].items;
      |r.value.items| == |items|
      && (forall i :: 0 <= i < |items| ==>
            r.value.items[i].quantity == items[i].quantity
            && (r.value.items[i].MissingLine? <==> items[i].product !in ps))
    ensures r.Ok? && ActiveCart(cs, user.value).Some? ==>
      r.value.items == View(ps, cs[ActiveCart(cs, user.value).value].items, Pricing.TierOf(role))
  {
    if user.None? then Err(400, UserMessage)
    else
      var c := ActiveCart(cs, user.value);
      if c.None? || cs[c.value].items == [] then Ok(CartView([], 0.0))
      else
        var t := Pricing.TierOf(role);
        var items := cs[c.value].items;
        Ok(CartView(View(ps, items, t), GrandTotal(ps, items, t)))
  }

  /** The reported total is the sum of the reported line totals, and missing products add nothing to it. */
  lemma GetCartTotals(cs: CartStore, ps: Products.Store, user: Option<Id>, role: Option<string>)
    requires GetCart(cs, ps, user, role).Ok?
    ensures var v := GetCart(cs, ps, user, role).value;
      v.grandTotal == Total(v.items)
      && (ActiveCart(cs, user.value).Some? ==>
            v.grandTotal == GrandTotal(ps, Present(ps, cs[ActiveCart(cs, user.value).value].items), Pricing.TierOf(role)))
  {
    var c := ActiveCart(cs, user.value);
    if c.Some? {
      var items := cs[c.value].items;
      GrandTotalIsViewTotal(ps, items, Pricing.TierOf(role));
      MissingLinesAddNothing(ps, items, Pricing.TierOf(role));
    }
  }

  // ---------------------------------------------------------------------
  // updateCart
  // ---------------------------------------------------------------------

  /** A line of the replace payload: `{ id, qty }`; a missing `qty` takes the default 1. */
  datatype RawItem = RawItem(id: Option<string>, qty: Option<int>)

  /** The converted line, when `getMongoId` reads the id. */
  function Convert(item: RawItem): (r: Option<CartLine>)
    ensures r.Some? <==> Helper.GetMongoId(item.id).Some?
  {
    var id := Helper.GetMongoId(item.id);
    if id.None? then None else Some(CartLine(id.value, item.qty.GetOr(1)))
  }

  /** Every line converts and has a quantity of at least 1, as the validators demand. */
  predicate Convertible(items: seq<RawItem>)
  {
    forall i :: 0 <= i < |items| ==> Convert(items[i]).Some? && Convert(items[i]).value.quantity >= 1
  }

  function ConvertAll(items: seq<RawItem>): (r: seq<CartLine>)
    requires Convertible(items)
    ensures |r| == |items|
    ensures forall i :: 0 <= i < |items| ==> Some(r[i]) == Convert(items[i]) && r[i].quantity >= 1
  {
    seq(|items|, i requires 0 <= i < |items| => Convert(items[i]).value)
  }

  /** The reply of `updateCart`: the cart written, its line prices and their total. */
  datatype Replaced = Replaced(cart: Id, prices: seq<real>, grandTotal: real)

  /** The prices `updateCart` reports: a missing product is priced 0. */
  function ReplacePrices(ps: Products.Store, items: seq<CartLine>, t: Pricing.Tier): (r: seq<real>)
    ensures |r| == |items|
    ensures forall i :: 0 <= i < |items| ==> r[i] == (if items[i].product in ps then UnitPrice(ps[items[i].product], t) else 0.0)
  {
    seq(|items|, i requires 0 <= i < |items| =>
      if items[i].product in ps then UnitPrice(ps[items[i].product], t) else 0.0)
  }

  /**
   * `updateCart`: replaces the lines of the active cart, creating it when
   * there is none. An id `getMongoId` cannot read, or a quantity below 1,
   * fails the validators (500) and writes nothing. The reply prices lines
   * with the table whose chain-store key is never matched.
   */
  function UpdateCart(cs: CartStore, ps: Products.Store, user: Option<Id>, role: Option<string>,
                      items: Option<seq<RawItem>>, newId: Id): (out: Outcome<CartStore, Replaced>)
    requires newId !in cs
    ensures out.result.Err? ==> out.state == cs
    ensures user.None? ==> out.result == Err(400, UserMessage)
    ensures user.Some? && items.None? ==> out.result == Err(400, "Invalid payload")
    ensures out.result.Ok? <==> user.Some? && items.Some? && Convertible(items.value)
    ensures out.result.Ok? ==>
      out.state.Keys == cs.Keys + {out.result.value.cart}
      && out.state[out.result.value.cart] == Cart(user.value, ConvertAll(items.value), true)
      && (forall c :: c in cs && c != out.result.value.cart ==> out.state[c] == cs[c])
      && (ActiveCart(cs, user.value).Some? ==> out.result.value.cart == ActiveCart(cs, user.value).value)
      && (ActiveCart(cs, user.value).None? ==> out.result.value.cart == newId)
  {
    if user.None? then Outcome(cs, Err(400, UserMessage))
    else if items.None? then Outcome(cs, Err(400, "Invalid payload"))
    else if !Convertible(items.value) then Outcome(cs, Err(500, "Internal Server Error"))
    else
      var lines := ConvertAll(items.value);
      var t := Pricing.TierOfCartUpdate(role);
      var prices := ReplacePrices(ps, lines, t);
      var c := ActiveCart(cs, user.value);
      var id := if c.Some? then c.value else newId;
      Outcome(cs[id := Cart(user.value, lines, true)], Ok(Replaced(id, prices, GrandTotal(ps, lines, t))))
  }

  /** Replacing the lines keeps one active cart per user. */
  lemma UpdateCartKeepsOneActive(cs: CartStore, ps: Products.Store, user: Option<Id>, role: Option<string>,
                                 items: Option<seq<RawItem>>, newId: Id)
    requires newId !in cs && OneActive(cs)
    ensures OneActive(UpdateCart(cs, ps, user, role, items, newId).state)
  {
    var out := UpdateCart(cs, ps, user, role, items, newId);
    if out.result.Ok? {
      var c := ActiveCart(cs, user.value);
      var lines := ConvertAll(items.value);
      if c.Some? {
        assert cs[c.value := Cart(user.value, lines, true)] == cs[c.value := cs[c.value].(items := lines)];
        ItemsWriteKeepsOneActive(cs, c.value, lines);
      } else {
        CreateKeepsOneActive(cs, user.value, newId, lines);
      }
    }
  }

  /**
   * A chain-store user sees the ChainStore price in `getCart` but is
   * charged the Franchise price in the `updateCart` reply.
   */
  lemma ReplacePricesChainStoreAsFranchise(p: Products.Product)
    requires Pricing.ChainStore in p.pricing && Pricing.Franchise in p.pricing
    ensures var items := [CartLine(1, 1)];
      var ps := map[1 := p];
      ReplacePrices(ps, items, Pricing.TierOfCartUpdate(Some("chainstore")))[0] == p.pricing[Pricing.Franchise]
      && View(ps, items, Pricing.TierOf(Some("chainstore")))[0].price == p.pricing[Pricing.ChainStore]
  {
    Pricing.ChainStoreRoleExamples();
  }

  // ---------------------------------------------------------------------
  // addToCart
  // ---------------------------------------------------------------------

  /** The `quantity` field as the request carries it. */
  datatype Quantity = Absent | NotNumber | Number(value: real)

  datatype AddRequest = AddRequest(user: Option<Id>, productId: string, quantity: Quantity)

  /** The first line whose printed product id equals the request string. */
  function FindLine(items: seq<CartLine>, productId: string): (r: Option<nat>)
    ensures r.Some? ==> r.value < |items| && Helper.IdString(items[r.value].product) == productId
    ensures r.Some? ==> forall j :: 0 <= j < r.value ==> Helper.IdString(items[j].product) != productId
    ensures r.None? ==> forall j :: 0 <= j < |items| ==> Helper.IdString(items[j].product) != productId
  {
    Helper.FirstPrinted(CartIds(items), productId)
  }

  function CartIds(items: seq<CartLine>): (ids: seq<Id>)
    ensures |ids| == |items| && forall i :: 0 <= i < |items| ==> ids[i] == items[i].product
  {
    seq(|items|, i requires 0 <= i < |items| => items[i].product)
  }

  /** The checks of `addToCart` before it touches the store. */
  function AddChecks(ps: Products.Store, rq: AddRequest): (r: Result<(Id, int)>)
    ensures r.Ok? ==> rq.user.Some? && rq.quantity.Number? && rq.quantity.value.Floor as real == rq.quantity.value
    ensures r.Ok? ==> r.value.1 == rq.quantity.value.Floor && r.value.1 > 0
    ensures r.Ok? ==> Helper.GetMongoId(Some(rq.productId)) == Some(r.value.0) && r.value.0 in ps
    ensures r.Err? ==> r.status in {400, 404, 500}
  {
    if rq.user.None? then Err(400, UserMessage)
    else if rq.productId == "" then Err(400, "Product ID is required")
    else if rq.quantity.Absent? then Err(400, "Quantity is required")
    else if rq.quantity.NotNumber? then Err(400, "Quantity must be a number")
    else if rq.quantity.value.Floor as real != rq.quantity.value then Err(400, "Quantity must be an integer")
    else if rq.quantity.value <= 0.0 then Err(400, "Quantity must be greater than 0")
    // `findById` on a string that is not an ObjectId throws a cast error.
    else if Helper.GetMongoId(Some(rq.productId)).None? then Err(500, "Internal server error")
    else if Helper.GetMongoId(Some(rq.productId)).value !in ps then Err(404, "Product not found")
    else Ok((Helper.GetMongoId(Some(rq.productId)).value, rq.quantity.value.Floor))
  }

  /** The lines after an add: the first matching line grows, or a new line is appended. */
  function AddLine(items: seq<CartLine>, productId: string, id: Id, q: int): (r: seq<CartLine>)
    ensures FindLine(items, productId).Some? ==>
      var i := FindLine(items, productId).value;
      r == items[i := items[i].(quantity := items[i].quantity + q)]
    ensures FindLine(items, productId).None? ==> r == items + [CartLine(id, q)]
  {
    var found := FindLine(items, productId);
    if found.Some? then items[found.value := items[found.value].(quantity := items[found.value].quantity + q)]
    else items + [CartLine(id, q)]
  }

  /**
   * `addToCart`. The active cart is created (empty) when there is none;
   * then the first line whose printed id equals the request string grows
   * by the quantity, or a line is appended.
   */
  function AddToCart(cs: CartStore, ps: Products.Store, rq: AddRequest, newId: Id): (out: Outcome<CartStore, Cart>)
    requires newId !in cs
    ensures out.result.Err? <==> AddChecks(ps, rq).Err?
    ensures out.result.Err? ==> out.state == cs
    ensures out.result.Ok? ==>
      var c := if ActiveCart(cs, rq.user.value).Some? then ActiveCart(cs, rq.user.value).value else newId;
      var before := if ActiveCart(cs, rq.user.value).Some? then cs[c].items else [];
      out.state.Keys == cs.Keys + {c}
      && out.state[c] == Cart(rq.user.value, AddLine(before, rq.productId, AddChecks(ps, rq).value.0, AddChecks(ps, rq).value.1), true)
      && out.result.value == out.state[c]
      && (forall d :: d in cs && d != c ==> out.state[d] == cs[d])
  {
    var checks := AddChecks(ps, rq);
    if checks.Err? then Outcome(cs, Err(checks.status, checks.message))
    else
      var user := rq.user.value;
      var active := ActiveCart(cs, user);
      var c := if active.Some? then active.value else newId;
      var before := if active.Some? then cs[c].items else [];
      var cart := Cart(user, AddLine(before, rq.productId, checks.value.0, checks.value.1), true);
      Outcome(cs[c := cart], Ok(cart))
  }

  /** Adding keeps one active cart per user. */
  lemma AddToCartKeepsOneActive(cs: CartStore, ps: Products.Store, rq: AddRequest, newId: Id)
    requires newId !in cs && OneActive(cs)
    ensures OneActive(AddToCart(cs, ps, rq, newId).state)
  {
    var out := AddToCart(cs, ps, rq, newId);
    if out.result.Ok? {
      var user := rq.user.value;
      var active := ActiveCart(cs, user);
      var c := if active.Some? then active.value else newId;
      if active.Some? {
        assert out.state == cs[c := cs[c].(items := out.state[c].items)];
        ItemsWriteKeepsOneActive(cs, c, out.state[c].items);
      } else {
        CreateKeepsOneActive(cs, user, newId, out.state[c].items);
      }
    }
  }

  /** No two lines of a cart name the same product. */
  predicate SingleLines(items: seq<CartLine>)
  {
    forall i, j :: 0 <= i < j < |items| ==> items[i].product != items[j].product
  }

  /**
   * Given the id as the server prints it, an add keeps a single line per
   * product: the product's line grows, or the product had none.
   */
  lemma AddLineKeepsSingleLines(items: seq<CartLine>, id: Id, q: int)
    requires SingleLines(items)
    ensures SingleLines(AddLine(items, Helper.IdString(id), id, q))
  {
    var r := AddLine(items, Helper.IdString(id), id, q);
    var found := FindLine(items, Helper.IdString(id));
    forall i, j | 0 <= i < j < |r|
      ensures r[i].product != r[j].product
    {
      if found.None? && j == |items| {
        assert Helper.IdString(items[i].product) != Helper.IdString(id);
      } else {
        assert r[i].product == items[i].product && r[j].product == items[j].product;
      }
    }
  }

  /**
   * An id spelled with an upper-case hex digit reads as the same product
   * but matches no line, so the add appends a second line for a product
   * the cart already holds.
   */
  lemma UppercaseIdDuplicatesLine(items: seq<CartLine>, s: string, k: nat)
    requires Helper.IsObjectIdString(s) && k < |s| && 'A' <= s[k] <= 'F'
    requires exists i :: 0 <= i < |items| && items[i].product == Helper.ParseHex(s)
    ensures var id := Helper.ParseHex(s);
      var r := AddLine(items, s, id, 1);
      r == items + [CartLine(id, 1)] && !SingleLines(r)
  {
    var id := Helper.ParseHex(s);
    forall j | 0 <= j < |items|
      ensures Helper.IdString(items[j].product) != s
    {
      Helper.FormatHexLowercase(items[j].product, Helper.ObjectIdDigits, k);
    }
    var i :| 0 <= i < |items| && items[i].product == id;
    var r := AddLine(items, s, id, 1);
    assert r[i].product == r[|items|].product;
  }

  // ---------------------------------------------------------------------
  // removeFromCart and clearCart
  // ---------------------------------------------------------------------

  /** `items.filter(item => item.productId.toString() !== productId)`. */
  function DropProduct(items: seq<CartLine>, productId: string): (r: seq<CartLine>)
    ensures |r| <= |items|
    ensures forall i :: 0 <= i < |r| ==> Helper.IdString(r[i].product) != productId
    ensures forall i :: 0 <= i < |items| && Helper.IdString(items[i].product) != productId ==> items[i] in r
    ensures forall l :: l in r ==> l in items
    decreases |items|
  {
    if items == [] then []
    else
      var rest := DropProduct(items[1..], productId);
      assert forall i :: 1 <= i < |items| ==> items[i] == items[1..][i - 1];
      if Helper.IdString(items[0].product) == productId then rest else [items[0]] + rest
  }

  /** Dropping distributes over concatenation: the kept lines stay in their order. */
  lemma {:induction false} DropProductAppend(a: seq<CartLine>, b: seq<CartLine>, productId: string)
    ensures DropProduct(a + b, productId) == DropProduct(a, productId) + DropProduct(b, productId)
    decreases |a|
  {
    if a == [] {
      assert a + b == b;
    } else {
      assert (a + b)[0] == a[0] && (a + b)[1..] == a[1..] + b;
      DropProductAppend(a[1..], b, productId);
    }
  }

  /** A single line is dropped exactly when its product prints as the id. */
  lemma DropProductOne(l: CartLine, productId: string)
    ensures DropProduct([l], productId) == if Helper.IdString(l.product) == productId then [] else [l]
  {
    assert [l][1..] == [];
  }

  /** Dropping a product nobody's line prints as keeps every line. */
  lemma {:induction false} DropAbsentKeeps(items: seq<CartLine>, productId: string)
    requires forall i :: 0 <= i < |items| ==> Helper.IdString(items[i].product) != productId
    ensures DropProduct(items, productId) == items
    decreases |items|
  {
    if items != [] {
      DropAbsentKeeps(items[1..], productId);
    }
  }

  /**
   * `removeFromCart`: every line for the product goes, the others stay in
   * order; without an active cart it is a 404 and nothing changes.
   */
  function RemoveFromCart(cs: CartStore, user: Option<Id>, productId: string): (out: Outcome<CartStore, Cart>)
    ensures out.result.Err? ==> out.state == cs
    ensures out.result.Err? <==> user.None? || productId == "" || ActiveCart(cs, user.value).None?
    ensures user.Some? && productId != "" && ActiveCart(cs, user.value).None? ==> out.result == Err(404, "Cart not found")
    ensures out.result.Ok? ==>
      var c := ActiveCart(cs, user.value).value;
      out.state == cs[c := cs[c].(items := DropProduct(cs[c].items, productId))]
      && out.result.value == out.state[c]
  {
    if user.None? then Outcome(cs, Err(400, UserMessage))
    else if productId == "" then Outcome(cs, Err(400, "Product ID is required"))
    else
      var active := ActiveCart(cs, user.value);
      if active.None? then Outcome(cs, Err(404, "Cart not found"))
      else
        var c := active.value;
        var cart := cs[c].(items := DropProduct(cs[c].items, productId));
        Outcome(cs[c := cart], Ok(cart))
  }

  /** `clearCart`: the active cart keeps no line; without one it is a 404. */
  function ClearCart(cs: CartStore, user: Option<Id>): (out: Outcome<CartStore, Cart>)
    ensures out.result.Err? ==> out.state == cs
    ensures out.result.Err? <==> user.None? || ActiveCart(cs, user.value).None?
    ensures out.result.Ok? ==>
      var c := ActiveCart(cs, user.value).value;
      out.state == cs[c := cs[c].(items := [])] && out.result.value.items == []
  {
    if user.None? then Outcome(cs, Err(400, UserMessage))
    else
      var active := ActiveCart(cs, user.value);
      if active.None? then Outcome(cs, Err(404, "Cart not found"))
      else
        var cart := cs[active.value].(items := []);
        Outcome(cs[active.value := cart], Ok(cart))
  }

  /** Removing and clearing keep one active cart per user, and after a clear the view is empty. */
  lemma RemoveAndClearKeepOneActive(cs: CartStore, ps: Products.Store, user: Option<Id>, productId: string, role: Option<string>)
    requires OneActive(cs)
    ensures OneActive(RemoveFromCart(cs, user, productId).state)
    ensures OneActive(ClearCart(cs, user).state)
    ensures ClearCart(cs, user).result.Ok? ==>
      GetCart(ClearCart(cs, user).state, ps, user, role) == Ok(CartView([], 0.0))
  {
    if user.Some? && ActiveCart(cs, user.value).Some? {
      var c := ActiveCart(cs, user.value).value;
      ItemsWriteKeepsOneActive(cs, c, DropProduct(cs[c].items, productId));
      ItemsWriteKeepsOneActive(cs, c, []);
      var t := ClearCart(cs, user).state;
      assert ActiveOf(t, user.value) == ActiveOf(cs, user.value);
    }
  }
}
