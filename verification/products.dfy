/**
 * Products and their display order (controllers/productController.js).
 *
 * Products are ranked per scope: the products of a sub-category when the
 * scope names one, otherwise the products whose `category` is the given
 * category. Soft-deleted products are never ranked. The controller keeps
 * ranks with three helpers: `handleDisplayOrderUpdate` (make room for a
 * product at a position), `reorderProductsAfterDeletion` (renumber a scope
 * 1..N) and the batch `updateProductsDisplayOrder`.
 */
module Products {
  import opened Common
  import opened Ranking
  import Pricing
  import Helper

  datatype Product = Product(
    name: string,
    category: Id,
    subCategory: Option<Id>,
    displayOrder: int,
    isDeleted: bool,
    published: bool,
    sku: string,
    price: real,
    costPrice: Option<real>,
    pricing: map<Pricing.Tier, real>,
    stock: int,
    isVariation: bool)

  type Store = map<Id, Product>

  /** The scope filter `subCategoryId ? { subCategory } : { category }`. */
  predicate InScope(p: Product, cat: Id, sub: Option<Id>)
  {
    if sub.Some? then p.subCategory == sub else p.category == cat
  }

  /** The ranked products of a scope: in the scope and not soft-deleted. */
  function ScopeMembers(s: Store, cat: Id, sub: Option<Id>): (g: set<Id>)
    ensures g <= s.Keys
    ensures forall x :: x in g <==> x in s && InScope(s[x], cat, sub) && !s[x].isDeleted
  {
    set x | x in s && InScope(s[x], cat, sub) && !s[x].isDeleted
  }

  /** The display orders of the store, as the ranking vocabulary sees them. */
  function OrdersOf(s: Store): (o: Orders)
    ensures o.Keys == s.Keys
    ensures forall x :: x in s ==> o[x] == s[x].displayOrder
  {
    map x | x in s :: s[x].displayOrder
  }

  /** Two versions of a product that differ at most in their display order. */
  predicate SameButOrder(p: Product, q: Product)
  {
    p.(displayOrder := q.displayOrder) == q
  }

  /** `displayOrder || 1`: a product without a (non-zero) order counts as first. */
  function OrderOrOne(d: int): int
  {
    if d == 0 then 1 else d
  }

  /** Give every product the order `o` names for it. */
  function WithOrders(s: Store, o: Orders): (r: Store)
    requires o.Keys == s.Keys
    ensures r.Keys == s.Keys
    ensures forall x :: x in s ==> SameButOrder(r[x], s[x])
    ensures OrdersOf(r) == o
  {
    var r := map x | x in s :: s[x].(displayOrder := o[x]);
    assert OrdersOf(r) == o;
    r
  }

  /** Two stores whose products agree up to display order and whose orders agree are equal. */
  lemma WithOwnOrders(s: Store)
    ensures WithOrders(s, OrdersOf(s)) == s
  {
    var r := WithOrders(s, OrdersOf(s));
    forall x | x in s
      ensures r[x] == s[x]
    {
      assert r[x].displayOrder == OrdersOf(r)[x];
    }
  }

  /** Add one to the order of every member of `g` whose order lies in lo..hi. */
  function PushUp(s: Store, g: set<Id>, lo: int, hi: Option<int>): (r: Store)
    ensures r.Keys == s.Keys
    ensures forall x :: x in s ==> SameButOrder(r[x], s[x])
    ensures OrdersOf(r) == Shift(OrdersOf(s), g * s.Keys, lo, hi, 1)
  {
    WithOrders(s, Shift(OrdersOf(s), g * s.Keys, lo, hi, 1))
  }

  function SetOrder(s: Store, m: Id, d: int): (r: Store)
    requires m in s
    ensures r.Keys == s.Keys
    ensures r[m].displayOrder == d && SameButOrder(r[m], s[m])
    ensures forall x :: x in s && x != m ==> r[x] == s[x]
    ensures OrdersOf(r) == OrdersOf(s)[m := d]
  {
    var r := s[m := s[m].(displayOrder := d)];
    assert OrdersOf(r) == OrdersOf(s)[m := d];
    r
  }

  /**
   * `handleDisplayOrderUpdate(productId, newDisplayOrder, categoryId, subCategoryId)`.
   * With a product to move that is not in the store it throws. Otherwise,
   * unless the order is unchanged, it pushes up by one the other ranked
   * products of the scope at or after the target (when inserting or moving
   * later) or in target..old-1 (when moving earlier), then gives the mover
   * the target.
   */
  function HandleDisplayOrderUpdate(s: Store, mover: Option<Id>, target: int, cat: Id, sub: Option<Id>): (r: Result<Store>)
    ensures r.Err? <==> mover.Some? && mover.value !in s
    ensures r.Err? ==> r.status == 500
    ensures r.Ok? ==> r.value.Keys == s.Keys
    ensures r.Ok? ==> forall x :: x in s ==> SameButOrder(r.value[x], s[x])
  {
    if mover.Some? && mover.value !in s then Err(500, "Product not found")
    else
      var prev := if mover.Some? then OrderOrOne(s[mover.value].displayOrder) else 1;
      if mover.Some? && prev == target then Ok(s)
      else
        var others := ScopeMembers(s, cat, sub) - (if mover.Some? then {mover.value} else {});
        var pushed :=
          if target > prev || mover.None? then PushUp(s, others, target, None)
          else PushUp(s, others, target, Some(prev - 1));
        if mover.Some? then Ok(SetOrder(pushed, mover.value, target)) else Ok(pushed)
  }

  /**
   * What the update does to one product: the mover gets the target (unless
   * it is already there, an order of 0 counting as 1); products outside
   * the scope stay as they were; every other product keeps its order or
   * moves down the list by one.
   */
  lemma DisplayOrderUpdateEffect(s: Store, mover: Option<Id>, target: int, cat: Id, sub: Option<Id>, x: Id)
    requires mover.Some? ==> mover.value in s
    requires x in s
    ensures HandleDisplayOrderUpdate(s, mover, target, cat, sub).Ok?
    ensures mover == Some(x) ==>
      HandleDisplayOrderUpdate(s, mover, target, cat, sub).value[x].displayOrder == target
      || (target == 1 && s[x].displayOrder == 0 && HandleDisplayOrderUpdate(s, mover, target, cat, sub).value == s)
    ensures mover != Some(x) && x !in ScopeMembers(s, cat, sub) ==>
      HandleDisplayOrderUpdate(s, mover, target, cat, sub).value[x] == s[x]
    ensures mover != Some(x) ==>
      HandleDisplayOrderUpdate(s, mover, target, cat, sub).value[x].displayOrder in {s[x].displayOrder, s[x].displayOrder + 1}
  {
    var r := HandleDisplayOrderUpdate(s, mover, target, cat, sub).value;
    if mover != Some(x) && x !in ScopeMembers(s, cat, sub) {
      assert r[x].displayOrder == s[x].displayOrder;
    }
  }

  /** Only display orders change, so no product changes scope. */
  lemma ScopeMembersUnchanged(s: Store, r: Store, cat: Id, sub: Option<Id>)
    requires r.Keys == s.Keys
    requires forall x :: x in s ==> SameButOrder(r[x], s[x])
    ensures ScopeMembers(r, cat, sub) == ScopeMembers(s, cat, sub)
  {
  }

  /**
   * Moving a ranked product earlier is the closing move of the ranking
   * vocabulary: the products in target..old-1 move up by one.
   */
  lemma MoveEarlierIsMove(s: Store, m: Id, target: int, cat: Id, sub: Option<Id>)
    requires m in ScopeMembers(s, cat, sub)
    requires s[m].displayOrder != 0 && target < s[m].displayOrder
    ensures HandleDisplayOrderUpdate(s, Some(m), target, cat, sub).Ok?
    ensures OrdersOf(HandleDisplayOrderUpdate(s, Some(m), target, cat, sub).value)
         == Move(OrdersOf(s), ScopeMembers(s, cat, sub), m, target)
  {
    var g := ScopeMembers(s, cat, sub);
    var r := HandleDisplayOrderUpdate(s, Some(m), target, cat, sub).value;
    var o := OrdersOf(s);
    assert (g - {m}) * s.Keys == g - {m};
    assert OrdersOf(r) == Move(o, g, m, target);
  }

  /** Moving a product of a dense scope earlier, to a position >= 1, keeps the scope dense. */
  lemma MoveEarlierKeepsDense(s: Store, m: Id, target: int, cat: Id, sub: Option<Id>)
    requires m in ScopeMembers(s, cat, sub)
    requires Dense(OrdersOf(s), ScopeMembers(s, cat, sub))
    requires 1 <= target < s[m].displayOrder
    ensures HandleDisplayOrderUpdate(s, Some(m), target, cat, sub).Ok?
    ensures Dense(OrdersOf(HandleDisplayOrderUpdate(s, Some(m), target, cat, sub).value),
                  ScopeMembers(HandleDisplayOrderUpdate(s, Some(m), target, cat, sub).value, cat, sub))
  {
    var g := ScopeMembers(s, cat, sub);
    var r := HandleDisplayOrderUpdate(s, Some(m), target, cat, sub).value;
    MoveEarlierIsMove(s, m, target, cat, sub);
    MoveKeepsDense(OrdersOf(s), g, m, target);
    ScopeMembersUnchanged(s, r, cat, sub);
  }

  /**
   * Moving a product of a dense scope to a later position inside 1..N
   * leaves its old position empty and pushes the last product to N + 1:
   * the scope is no longer dense.
   */
  lemma MoveLaterLeavesGap(s: Store, m: Id, target: int, cat: Id, sub: Option<Id>)
    requires m in ScopeMembers(s, cat, sub)
    requires Dense(OrdersOf(s), ScopeMembers(s, cat, sub))
    requires s[m].displayOrder < target <= |ScopeMembers(s, cat, sub)|
    ensures HandleDisplayOrderUpdate(s, Some(m), target, cat, sub).Ok?
    ensures forall x :: x in ScopeMembers(s, cat, sub) ==>
      HandleDisplayOrderUpdate(s, Some(m), target, cat, sub).value[x].displayOrder != s[m].displayOrder
    ensures !Dense(OrdersOf(HandleDisplayOrderUpdate(s, Some(m), target, cat, sub).value),
                   ScopeMembers(HandleDisplayOrderUpdate(s, Some(m), target, cat, sub).value, cat, sub))
  {
    var g := ScopeMembers(s, cat, sub);
    var o := OrdersOf(s);
    var r := HandleDisplayOrderUpdate(s, Some(m), target, cat, sub).value;
    MoveLaterShape(s, m, target, cat, sub);
    PushLaterLeavesGap(o, g, m, target);
    ScopeMembersUnchanged(s, r, cat, sub);
  }

  lemma MoveLaterShape(s: Store, m: Id, target: int, cat: Id, sub: Option<Id>)
    requires m in ScopeMembers(s, cat, sub)
    requires s[m].displayOrder != 0 && s[m].displayOrder < target
    ensures HandleDisplayOrderUpdate(s, Some(m), target, cat, sub).Ok?
    ensures OrdersOf(HandleDisplayOrderUpdate(s, Some(m), target, cat, sub).value)
         == PushAndPlace(OrdersOf(s), ScopeMembers(s, cat, sub), m, target)
  {
    var g := ScopeMembers(s, cat, sub);
    var pushed := PushUp(s, g - {m}, target, None);
    assert HandleDisplayOrderUpdate(s, Some(m), target, cat, sub) == Ok(SetOrder(pushed, m, target));
    assert (g - {m}) * s.Keys == g - {m};
  }

  // ---------------------------------------------------------------------
  // Renumbering a scope after a deletion
  // ---------------------------------------------------------------------

  /**
   * `reorderProductsAfterDeletion(categoryId, subCategoryId)`: the ranked
   * products of the scope, listed by display order, get the orders 1..N.
   */
  function ReorderAfterDeletion(s: Store, cat: Id, sub: Option<Id>): (r: Store)
    ensures r.Keys == s.Keys
    ensures forall x :: x in s ==> SameButOrder(r[x], s[x])
    ensures forall x :: x in s && x !in ScopeMembers(s, cat, sub) ==> r[x] == s[x]
    ensures OrdersOf(r) == Renumber(OrdersOf(s), ScopeMembers(s, cat, sub))
  {
    var r := WithOrders(s, Renumber(OrdersOf(s), ScopeMembers(s, cat, sub)));
    assert forall x :: x in s && x !in ScopeMembers(s, cat, sub) ==> r[x] == s[x] by {
      forall x | x in s && x !in ScopeMembers(s, cat, sub)
        ensures r[x] == s[x]
      {
        assert r[x].displayOrder == s[x].displayOrder;
      }
    }
    r
  }

  /** After the renumbering the scope holds each order 1..N once. */
  lemma ReorderAfterDeletionDense(s: Store, cat: Id, sub: Option<Id>)
    ensures ScopeMembers(ReorderAfterDeletion(s, cat, sub), cat, sub) == ScopeMembers(s, cat, sub)
    ensures Dense(OrdersOf(ReorderAfterDeletion(s, cat, sub)), ScopeMembers(s, cat, sub))
  {
    ScopeMembersUnchanged(s, ReorderAfterDeletion(s, cat, sub), cat, sub);
    RenumberDense(OrdersOf(s), ScopeMembers(s, cat, sub));
  }

  /** Renumbering a scope a second time changes nothing. */
  lemma ReorderAfterDeletionIdempotent(s: Store, cat: Id, sub: Option<Id>)
    ensures ReorderAfterDeletion(ReorderAfterDeletion(s, cat, sub), cat, sub) == ReorderAfterDeletion(s, cat, sub)
  {
    var g := ScopeMembers(s, cat, sub);
    var r := ReorderAfterDeletion(s, cat, sub);
    ScopeMembersUnchanged(s, r, cat, sub);
    RenumberIdempotent(OrdersOf(s), g);
    WithOwnOrders(r);
  }

  lemma ReorderAfterDeletionKeepsOrder(s: Store, cat: Id, sub: Option<Id>, x: Id, y: Id)
    requires x in ScopeMembers(s, cat, sub) && y in ScopeMembers(s, cat, sub)
    requires s[x].displayOrder < s[y].displayOrder
    ensures ReorderAfterDeletion(s, cat, sub)[x].displayOrder < ReorderAfterDeletion(s, cat, sub)[y].displayOrder
  {
    RenumberKeepsOrder(OrdersOf(s), ScopeMembers(s, cat, sub), x, y);
  }

  // ---------------------------------------------------------------------
  // Schema: partial unique indexes and the SKU hook (models/productModel.js)
  // ---------------------------------------------------------------------

  /** The documents the display-order indexes cover: published and not soft-deleted. */
  predicate Indexed(p: Product)
  {
    p.published && !p.isDeleted
  }

  /** (category, displayOrder) is unique among indexed products without a sub-category. */
  predicate CategoryOrderIndexHolds(s: Store)
  {
    forall x, y :: x in s && y in s && x != y
      && Indexed(s[x]) && Indexed(s[y])
      && s[x].subCategory.None? && s[y].subCategory.None?
      && s[x].category == s[y].category
      ==> s[x].displayOrder != s[y].displayOrder
  }

  /** (subCategory, displayOrder) is unique among indexed products with a sub-category. */
  predicate SubCategoryOrderIndexHolds(s: Store)
  {
    forall x, y :: x in s && y in s && x != y
      && Indexed(s[x]) && Indexed(s[y])
      && s[x].subCategory.Some? && s[x].subCategory == s[y].subCategory
      ==> s[x].displayOrder != s[y].displayOrder
  }

  /** A non-empty SKU belongs to one product at most. */
  predicate SkuIndexHolds(s: Store)
  {
    forall x, y :: x in s && y in s && x != y && s[x].sku != "" ==> s[x].sku != s[y].sku
  }

  /**
   * Keeping every scope dense is enough for both display-order indexes:
   * two products an index compares always share a scope.
   */
  lemma DenseScopesSatisfyIndexes(s: Store)
    requires forall c: Id, sub: Option<Id> :: Dense(OrdersOf(s), ScopeMembers(s, c, sub))
    ensures CategoryOrderIndexHolds(s)
    ensures SubCategoryOrderIndexHolds(s)
  {
    forall x, y | x in s && y in s && x != y && Indexed(s[x]) && Indexed(s[y])
        && s[x].subCategory.None? && s[y].subCategory.None? && s[x].category == s[y].category
      ensures s[x].displayOrder != s[y].displayOrder
    {
      var g := ScopeMembers(s, s[x].category, None);
      assert x in g && y in g;
      assert Dense(OrdersOf(s), g);
    }
    forall x, y | x in s && y in s && x != y && Indexed(s[x]) && Indexed(s[y])
        && s[x].subCategory.Some? && s[x].subCategory == s[y].subCategory
      ensures s[x].displayOrder != s[y].displayOrder
    {
      var g := ScopeMembers(s, s[x].category, s[x].subCategory);
      assert x in g && y in g;
      assert Dense(OrdersOf(s), g);
    }
  }

  /** The pre-save hook: a modified string SKU is stored trimmed. */
  function SkuOnSave(sku: string, modified: bool): (r: string)
    ensures modified ==> r == Trim(sku)
    ensures !modified ==> r == sku
  {
    if modified then Trim(sku) else sku
  }

  /** Saving a product twice stores the same SKU as saving it once. */
  lemma SkuOnSaveIdempotent(sku: string)
    ensures SkuOnSave(SkuOnSave(sku, true), true) == SkuOnSave(sku, true)
  {
    TrimIdempotent(sku);
  }
}
