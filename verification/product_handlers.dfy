/**
 * The product handlers that write: `createProduct`, `updateProduct`,
 * `deleteProduct` and the batch `updateProductsDisplayOrder`
 * (controllers/productController.js). Each is a function from the product
 * store and the request to the store afterwards and the answer; writes the
 * handler makes before it detects an error are kept.
 */
module ProductHandlers {
  import opened Common
  import opened Ranking
  import opened Products
  import Pricing
  import Helper

  /** A numeric request field that may be absent (undefined or null). */
  datatype NumberField = Missing | NotANumber | Number(value: real)

  /**
   * The body of a create request. An empty string stands for an absent
   * (undefined, null or "") text field; `displayOrder` 0 stands for an
   * absent or falsy order; `price` None is a value `Number` turns into NaN.
   */
  datatype NewProduct = NewProduct(
    name: string,
    description: string,
    category: string,
    subCategory: Option<Id>,
    brand: string,
    stock: Option<int>,
    price: Option<real>,
    costPrice: NumberField,
    sku: Option<string>,
    pricing: map<Pricing.Tier, real>,
    published: bool,
    displayOrder: int)

  /** No two products share a name. */
  predicate NamesUnique(s: Store)
  {
    forall x, y :: x in s && y in s && x != y ==> s[x].name != s[y].name
  }

  /** Names are stored trimmed (the schema's `trim` setter). */
  predicate NamesTrimmed(s: Store)
  {
    forall x :: x in s ==> Trimmed(s[x].name)
  }

  /** A product is stored under `name`; the query casts its value through the same `trim` setter first. */
  predicate NameTaken(s: Store, name: string)
  {
    exists x :: x in s && s[x].name == name
  }

  predicate SkuTaken(s: Store, sku: string)
  {
    exists x :: x in s && s[x].sku == sku
  }

  /** The SKU a create request stores: trimmed when it is a string, else the schema default "". */
  function NormalizedSku(sku: Option<string>): (r: string)
    ensures sku.None? ==> r == ""
    ensures sku.Some? ==> r == Trim(sku.value)
  {
    if sku.Some? then Trim(sku.value) else ""
  }

  /** A positive number: `!mainPrice || isNaN(mainPrice) || mainPrice <= 0` fails. */
  predicate ValidPrice(price: Option<real>)
  {
    price.Some? && price.value > 0.0
  }

  /** An absent cost price passes; a present one must be a positive number. */
  predicate ValidCostPrice(c: NumberField)
  {
    c.Missing? || (c.Number? && c.value > 0.0)
  }

  /**
   * The checks `createProduct` makes before it writes anything, in source
   * order; on success, the category the product goes to.
   */
  function CreateChecks(s: Store, categories: set<Id>, brands: set<Id>, p: NewProduct): (r: Result<Id>)
    ensures r.Err? ==> r.status == 400 || r.status == 404
    ensures r.Ok? ==> p.name != "" && p.description != "" && p.stock.Some?
    ensures r.Ok? ==> ValidPrice(p.price) && ValidCostPrice(p.costPrice)
    ensures r.Ok? ==> !NameTaken(s, Trim(p.name))
    ensures r.Ok? ==> Helper.GetMongoId(Some(p.category)) == Some(r.value) && r.value in categories
    ensures r.Ok? && p.brand != "" ==> Helper.GetMongoId(Some(p.brand)).Some?
    ensures r.Ok? && p.brand != "" ==> Helper.GetMongoId(Some(p.brand)).value in brands
  {
    if p.name == "" then Err(400, "Product name is required")
    else if p.description == "" then Err(400, "Product description is required")
    else if p.category == "" then Err(400, "Category is required")
    else if p.stock.None? then Err(400, "Stock quantity is required")
    else if !ValidPrice(p.price) then Err(400, "Valid main price is required")
    else if !ValidCostPrice(p.costPrice) then Err(400, "Valid cost price is required")
    else if NameTaken(s, Trim(p.name)) then Err(400, "Product with this name already exists")
    else
      match Helper.GetMongoId(Some(p.category))
      case None => Err(400, "Invalid category ID")
      case Some(cat) =>
        if cat !in categories then Err(404, "Category not found")
        else if p.brand != "" && Helper.GetMongoId(Some(p.brand)).None? then Err(400, "Invalid brand ID")
        else if p.brand != "" && Helper.GetMongoId(Some(p.brand)).value !in brands then Err(404, "Brand not found")
        else Ok(cat)
  }

  /**
   * The store after the order step of `createProduct` and the order the new
   * product takes: an explicit order makes room for it in its scope; with
   * none it goes after the ranked products of the scope (count + 1).
   */
  function MakeRoom(s: Store, cat: Id, p: NewProduct): (r: (Store, int))
    ensures p.displayOrder == 0 ==> r == (s, |ScopeMembers(s, cat, p.subCategory)| + 1)
    ensures p.displayOrder != 0 ==> r.1 == p.displayOrder
    ensures p.displayOrder != 0 ==> Ok(r.0) == HandleDisplayOrderUpdate(s, None, p.displayOrder, cat, p.subCategory)
    ensures r.0.Keys == s.Keys
    ensures forall x :: x in s ==> SameButOrder(r.0[x], s[x])
  {
    if p.displayOrder != 0 then
      (HandleDisplayOrderUpdate(s, None, p.displayOrder, cat, p.subCategory).value, p.displayOrder)
    else (s, |ScopeMembers(s, cat, p.subCategory)| + 1)
  }

  /** The document `createProduct` saves. */
  function NewDocument(cat: Id, p: NewProduct, order: int): (d: Product)
    requires p.price.Some?
    ensures d.category == cat && d.subCategory == p.subCategory && d.displayOrder == order
    ensures !d.isDeleted && d.name == Trim(p.name) && d.sku == NormalizedSku(p.sku)
  {
    Product(Trim(p.name), cat, p.subCategory, order, false, p.published, NormalizedSku(p.sku),
            p.price.value, if p.costPrice.Number? then Some(p.costPrice.value) else None,
            p.pricing, p.stock.GetOr(0), false)
  }

  /** What `createProduct` does once its checks have passed, with the category they found. */
  function CreateAfterChecks(s: Store, cat: Id, p: NewProduct, newId: Id): (out: Outcome<Store, Id>)
    requires newId !in s && p.price.Some? && ValidCostPrice(p.costPrice)
    ensures out.result.Ok? ==> out.result.value == newId && out.state.Keys == s.Keys + {newId}
    ensures out.result.Ok? ==> out.state[newId] == NewDocument(cat, p, MakeRoom(s, cat, p).1)
    ensures out.result.Ok? ==> out.state[newId].costPrice.Some?
    ensures out.result.Ok? ==> Pricing.Complete(Pricing.Priced(Some(out.state[newId].price), out.state[newId].pricing))
    ensures out.result.Err? ==> out.state == MakeRoom(s, cat, p).0
    ensures forall x :: x in s ==> x in out.state && out.state[x] == MakeRoom(s, cat, p).0[x]
  {
    var (moved, order) := MakeRoom(s, cat, p);
    var sku := NormalizedSku(p.sku);
    if sku != "" && SkuTaken(moved, sku) then
      Outcome(moved, Err(400, "Product with this SKU already exists"))
    else if p.costPrice.Missing? || AllSpace(p.name) || !Pricing.Complete(Pricing.Priced(p.price, p.pricing)) then
      Outcome(moved, Err(500, "Internal Server Error"))
    else
      Outcome(moved[newId := NewDocument(cat, p, order)], Ok(newId))
  }

  /**
   * `createProduct`. The checks come first and leave the store as it was.
   * The order step then writes; a duplicate SKU found after it, or a
   * document the schema refuses (no cost price, a name that trims to
   * nothing, an incomplete tier table), is answered with an error but the
   * siblings stay moved. `newId` is the id the database gives the new
   * document.
   */
  function CreateProduct(s: Store, categories: set<Id>, brands: set<Id>, p: NewProduct, newId: Id): (out: Outcome<Store, Id>)
    requires newId !in s
    ensures CreateChecks(s, categories, brands, p).Err? ==>
      out.state == s && out.result.Err? && out.result.status == CreateChecks(s, categories, brands, p).status
    ensures out.result.Ok? ==> out.result.value == newId && out.state.Keys == s.Keys + {newId}
    ensures out.result.Ok? ==> out.state[newId].name == Trim(p.name) != "" && !out.state[newId].isDeleted
    ensures out.result.Ok? ==> out.state[newId].costPrice.Some?
    ensures out.result.Ok? ==> Pricing.Complete(Pricing.Priced(Some(out.state[newId].price), out.state[newId].pricing))
    ensures out.state.Keys <= s.Keys + {newId}
    ensures forall x :: x in s ==> x in out.state && SameButOrder(out.state[x], s[x])
  {
    match CreateChecks(s, categories, brands, p)
    case Err(st, msg) => Outcome(s, Err(st, msg))
    case Ok(cat) =>
      TrimEmptyIffBlank(p.name);
      CreateAfterChecks(s, cat, p, newId)
  }

  /**
   * Creating a product in a dense scope, with no order or an order inside
   * 1..N+1, leaves the scope (now including the new product) dense.
   */
  lemma CreateKeepsScopeDense(s: Store, categories: set<Id>, brands: set<Id>, p: NewProduct, newId: Id)
    requires newId !in s
    requires CreateChecks(s, categories, brands, p).Ok?
    requires Dense(OrdersOf(s), ScopeMembers(s, CreateChecks(s, categories, brands, p).value, p.subCategory))
    requires p.displayOrder == 0
          || 1 <= p.displayOrder <= |ScopeMembers(s, CreateChecks(s, categories, brands, p).value, p.subCategory)| + 1
    requires CreateProduct(s, categories, brands, p, newId).result.Ok?
    ensures ScopeMembers(CreateProduct(s, categories, brands, p, newId).state, CreateChecks(s, categories, brands, p).value, p.subCategory)
         == ScopeMembers(s, CreateChecks(s, categories, brands, p).value, p.subCategory) + {newId}
    ensures Dense(OrdersOf(CreateProduct(s, categories, brands, p, newId).state),
                  ScopeMembers(CreateProduct(s, categories, brands, p, newId).state, CreateChecks(s, categories, brands, p).value, p.subCategory))
  {
    var cat := CreateChecks(s, categories, brands, p).value;
    assert CreateProduct(s, categories, brands, p, newId) == CreateAfterChecks(s, cat, p, newId);
    PlacedKeepsScopeDense(s, cat, p, newId);
  }

  lemma PlacedKeepsScopeDense(s: Store, cat: Id, p: NewProduct, newId: Id)
    requires newId !in s && p.price.Some? && ValidCostPrice(p.costPrice)
    requires Dense(OrdersOf(s), ScopeMembers(s, cat, p.subCategory))
    requires p.displayOrder == 0 || 1 <= p.displayOrder <= |ScopeMembers(s, cat, p.subCategory)| + 1
    requires CreateAfterChecks(s, cat, p, newId).result.Ok?
    ensures ScopeMembers(CreateAfterChecks(s, cat, p, newId).state, cat, p.subCategory)
         == ScopeMembers(s, cat, p.subCategory) + {newId}
    ensures Dense(OrdersOf(CreateAfterChecks(s, cat, p, newId).state),
                  ScopeMembers(CreateAfterChecks(s, cat, p, newId).state, cat, p.subCategory))
  {
    var (moved, order) := MakeRoom(s, cat, p);
    var doc := NewDocument(cat, p, order);
    assert CreateAfterChecks(s, cat, p, newId).state == moved[newId := doc];
    if p.displayOrder == 0 {
      AppendKeepsDense(s, cat, p.subCategory, newId, doc);
    } else {
      InsertKeepsScopeDense(s, cat, p.subCategory, newId, doc);
    }
  }

  lemma AppendKeepsDense(s: Store, cat: Id, sub: Option<Id>, newId: Id, doc: Product)
    requires newId !in s && InScope(doc, cat, sub) && !doc.isDeleted
    requires Dense(OrdersOf(s), ScopeMembers(s, cat, sub))
    requires doc.displayOrder == |ScopeMembers(s, cat, sub)| + 1
    ensures ScopeMembers(s[newId := doc], cat, sub) == ScopeMembers(s, cat, sub) + {newId}
    ensures Dense(OrdersOf(s[newId := doc]), ScopeMembers(s[newId := doc], cat, sub))
  {
    AddToScope(s, cat, sub, newId, doc);
    Ranking.AppendKeepsDense(OrdersOf(s), ScopeMembers(s, cat, sub), newId);
  }

  lemma InsertKeepsScopeDense(s: Store, cat: Id, sub: Option<Id>, newId: Id, doc: Product)
    requires newId !in s && InScope(doc, cat, sub) && !doc.isDeleted
    requires Dense(OrdersOf(s), ScopeMembers(s, cat, sub))
    requires 1 <= doc.displayOrder <= |ScopeMembers(s, cat, sub)| + 1
    ensures ScopeMembers(HandleDisplayOrderUpdate(s, None, doc.displayOrder, cat, sub).value[newId := doc], cat, sub)
         == ScopeMembers(s, cat, sub) + {newId}
    ensures Dense(OrdersOf(HandleDisplayOrderUpdate(s, None, doc.displayOrder, cat, sub).value[newId := doc]),
                  ScopeMembers(HandleDisplayOrderUpdate(s, None, doc.displayOrder, cat, sub).value[newId := doc], cat, sub))
  {
    var g := ScopeMembers(s, cat, sub);
    InsertIsPushUp(s, cat, sub, doc.displayOrder);
    var moved := PushUp(s, g, doc.displayOrder, None);
    ScopeMembersUnchanged(s, moved, cat, sub);
    AddToScope(moved, cat, sub, newId, doc);
    assert g * s.Keys == g;
    InsertKeepsDense(OrdersOf(s), g, newId, doc.displayOrder);
  }

  /** Making room for a new product pushes up the ranked products at or after the target. */
  lemma InsertIsPushUp(s: Store, cat: Id, sub: Option<Id>, target: int)
    ensures HandleDisplayOrderUpdate(s, None, target, cat, sub) == Ok(PushUp(s, ScopeMembers(s, cat, sub), target, None))
  {
    assert ScopeMembers(s, cat, sub) - {} == ScopeMembers(s, cat, sub);
  }

  /** Adding a live document of the scope under a new id adds it to the ranked set. */
  lemma AddToScope(s: Store, cat: Id, sub: Option<Id>, newId: Id, doc: Product)
    requires newId !in s && InScope(doc, cat, sub) && !doc.isDeleted
    ensures ScopeMembers(s[newId := doc], cat, sub) == ScopeMembers(s, cat, sub) + {newId}
    ensures OrdersOf(s[newId := doc]) == OrdersOf(s)[newId := doc.displayOrder]
  {
    assert OrdersOf(s[newId := doc]) == OrdersOf(s)[newId := doc.displayOrder];
  }

  /** A created product never shares a non-empty SKU, nor a name, with another product. */
  lemma CreateKeepsUniqueness(s: Store, categories: set<Id>, brands: set<Id>, p: NewProduct, newId: Id)
    requires newId !in s
    requires SkuIndexHolds(s) && NamesUnique(s) && NamesTrimmed(s)
    ensures SkuIndexHolds(CreateProduct(s, categories, brands, p, newId).state)
    ensures CreateProduct(s, categories, brands, p, newId).result.Ok? ==> NamesUnique(CreateProduct(s, categories, brands, p, newId).state)
    ensures NamesTrimmed(CreateProduct(s, categories, brands, p, newId).state)
  {
    var out := CreateProduct(s, categories, brands, p, newId);
    if out.result.Ok? {
      var cat := CreateChecks(s, categories, brands, p).value;
      var (moved, order) := MakeRoom(s, cat, p);
      var doc := NewDocument(cat, p, order);
      assert out.state == moved[newId := doc];
      TrimmedIsFixpoint(p.name);
      assert !NameTaken(s, Trim(p.name));
      OneProductAdded(s, moved, newId, doc);
    } else {
      OnlyOrdersMoved(s, out.state);
    }
  }

  /** Stores that differ only in display orders agree on every SKU and name. */
  lemma OnlyOrdersMoved(s: Store, r: Store)
    requires r.Keys == s.Keys || r == s
    requires forall x :: x in s ==> x in r && SameButOrder(r[x], s[x])
    requires SkuIndexHolds(s) && NamesTrimmed(s)
    ensures SkuIndexHolds(r) && NamesTrimmed(r)
  {
    assert forall x :: x in r ==> r[x].sku == s[x].sku && r[x].name == s[x].name;
  }

  /** Adding a document whose name is trimmed and new, and whose SKU is empty or new, keeps the indexes. */
  lemma OneProductAdded(s: Store, moved: Store, newId: Id, doc: Product)
    requires newId !in s && moved.Keys == s.Keys
    requires forall x :: x in s ==> SameButOrder(moved[x], s[x])
    requires SkuIndexHolds(s) && NamesUnique(s) && NamesTrimmed(s)
    requires Trimmed(doc.name) && !NameTaken(s, doc.name)
    requires doc.sku != "" ==> !SkuTaken(moved, doc.sku)
    ensures SkuIndexHolds(moved[newId := doc]) && NamesUnique(moved[newId := doc]) && NamesTrimmed(moved[newId := doc])
  {
    assert forall x :: x in moved ==> moved[x].sku == s[x].sku && moved[x].name == s[x].name;
  }

  /**
   * An explicit order moves the siblings before the duplicate-SKU check: a
   * request refused for its SKU still leaves them moved.
   */
  lemma DuplicateSkuKeepsShift(s: Store, categories: set<Id>, brands: set<Id>, p: NewProduct, newId: Id)
    requires newId !in s
    requires CreateChecks(s, categories, brands, p).Ok?
    requires p.displayOrder != 0
    requires NormalizedSku(p.sku) != "" && SkuTaken(s, NormalizedSku(p.sku))
    ensures CreateProduct(s, categories, brands, p, newId).result == Err(400, "Product with this SKU already exists")
    ensures Ok(CreateProduct(s, categories, brands, p, newId).state)
         == HandleDisplayOrderUpdate(s, None, p.displayOrder, CreateChecks(s, categories, brands, p).value, p.subCategory)
  {
    var cat := CreateChecks(s, categories, brands, p).value;
    var moved := MakeRoom(s, cat, p).0;
    var x :| x in s && s[x].sku == NormalizedSku(p.sku);
    assert moved[x].sku == s[x].sku;
  }

  /**
   * A name of white space only passes the handler's required check (it is
   * not "") and its duplicate check, and is refused when the document is
   * saved, with a server error.
   */
  lemma BlankNameFailsOnSave(s: Store, categories: set<Id>, brands: set<Id>, p: NewProduct, newId: Id)
    requires newId !in s
    requires CreateChecks(s, categories, brands, p).Ok?
    requires p.name == " "
    requires NormalizedSku(p.sku) == ""
    ensures CreateProduct(s, categories, brands, p, newId).result == Err(500, "Internal Server Error")
  {
    assert AllSpace(p.name);
    TrimOfBlank(p.name);
  }

  /**
   * The handler treats the cost price as optional but the schema requires
   * it: a request without one passes every check of the handler and is
   * still refused when the document is saved, with a server error.
   */
  lemma MissingCostPriceFailsOnSave(s: Store, categories: set<Id>, brands: set<Id>, p: NewProduct, newId: Id)
    requires newId !in s
    requires CreateChecks(s, categories, brands, p).Ok?
    requires p.costPrice.Missing?
    requires NormalizedSku(p.sku) == ""
    ensures CreateProduct(s, categories, brands, p, newId).result == Err(500, "Internal Server Error")
  {
  }

  // ---------------------------------------------------------------------
  // updateProduct
  // ---------------------------------------------------------------------

  /**
   * The body of an update request; None is a field the request leaves out.
   * `subCategory` Some(None) clears the sub-category (null or "").
   */
  datatype ProductUpdate = ProductUpdate(
    id: Id,
    name: Option<string>,
    sku: Option<string>,
    category: Option<Id>,
    subCategory: Option<Option<Id>>,
    brand: Option<Id>,
    pricing: Option<map<Pricing.Tier, real>>,
    price: Option<real>,
    costPrice: Option<real>,
    published: Option<bool>,
    stock: Option<int>,
    displayOrder: Option<int>)

  /** The tier the pricing check reports first among those missing, in the order it checks them. */
  function MissingTier(m: map<Pricing.Tier, real>): (r: Option<Pricing.Tier>)
    ensures r.None? <==> Pricing.Franchise in m && Pricing.Retailer in m && Pricing.Wholesale in m && Pricing.ChainStore in m
    ensures r.Some? ==> r.value !in m
  {
    if Pricing.Franchise !in m then Some(Pricing.Franchise)
    else if Pricing.Retailer !in m then Some(Pricing.Retailer)
    else if Pricing.Wholesale !in m then Some(Pricing.Wholesale)
    else if Pricing.ChainStore !in m then Some(Pricing.ChainStore)
    else None
  }

  /** The checks `updateProduct` makes before it writes anything, in source order. */
  function UpdateChecks(s: Store, categories: set<Id>, brands: set<Id>, u: ProductUpdate): (r: Result<Product>)
    ensures r.Err? ==> r.status == 400 || r.status == 404
    ensures r.Err? && u.id !in s ==> r.status == 404
    ensures r.Ok? <==> (u.id in s
      && !(u.name.Some? && u.name.value != "" && u.name.value != s[u.id].name && NameTaken(s, Trim(u.name.value)))
      && !(u.sku.Some? && u.sku.value != s[u.id].sku && SkuTaken(s, Trim(u.sku.value)))
      && (u.category.Some? ==> u.category.value in categories)
      && (u.subCategory.Some? && u.subCategory.value.Some? ==> u.subCategory.value.value in categories)
      && (u.brand.Some? ==> u.brand.value in brands)
      && (u.pricing.Some? ==> MissingTier(u.pricing.value).None?))
    ensures r.Ok? ==> r.value == s[u.id]
  {
    if u.id !in s then Err(404, "Product not found")
    else
      var prev := s[u.id];
      if u.name.Some? && u.name.value != "" && u.name.value != prev.name && NameTaken(s, Trim(u.name.value)) then
        Err(400, "Product with this name already exists")
      else if u.sku.Some? && u.sku.value != prev.sku && SkuTaken(s, Trim(u.sku.value)) then
        Err(400, "Product with this SKU already exists")
      else if u.category.Some? && u.category.value !in categories then Err(404, "Category not found")
      else if u.subCategory.Some? && u.subCategory.value.Some? && u.subCategory.value.value !in categories then
        Err(404, "Subcategory not found")
      else if u.brand.Some? && u.brand.value !in brands then Err(404, "Brand not found")
      else if u.pricing.Some? && MissingTier(u.pricing.value).Some? then
        Err(400, "Pricing for a tier must include a valid price")
      else Ok(prev)
  }

  /** The scope the update ranks the product in: the requested category and sub-category, else its own. */
  function UpdateScope(prev: Product, u: ProductUpdate): (Id, Option<Id>)
  {
    (u.category.GetOr(prev.category), if u.subCategory.Some? then u.subCategory.value else prev.subCategory)
  }

  /** The requested fields applied to the stored document. */
  function Patch(p: Product, u: ProductUpdate): (q: Product)
    ensures u.name.Some? ==> q.name == Trim(u.name.value)
    ensures u.name.None? ==> q.name == p.name
    ensures u.sku.Some? ==> q.sku == Trim(u.sku.value)
    ensures u.sku.None? ==> q.sku == p.sku
    ensures u.displayOrder.Some? ==> q.displayOrder == u.displayOrder.value
    ensures u.displayOrder.None? ==> q.displayOrder == p.displayOrder
    ensures q.isDeleted == p.isDeleted
  {
    Product(
      name := if u.name.Some? then Trim(u.name.value) else p.name,
      category := u.category.GetOr(p.category),
      subCategory := if u.subCategory.Some? then u.subCategory.value else p.subCategory,
      displayOrder := u.displayOrder.GetOr(p.displayOrder),
      isDeleted := p.isDeleted,
      published := u.published.GetOr(p.published),
      sku := if u.sku.Some? then Trim(u.sku.value) else p.sku,
      price := u.price.GetOr(p.price),
      costPrice := if u.costPrice.Some? then u.costPrice else p.costPrice,
      pricing := if u.pricing.Some? && |u.pricing.value| > 0 then u.pricing.value else p.pricing,
      stock := u.stock.GetOr(p.stock),
      isVariation := p.isVariation)
  }

  /**
   * `updateProduct`. Failed checks leave the store as it was. A requested
   * order first makes room in the (possibly new) scope, then the document
   * is rewritten; a name that trims to nothing is refused by the schema
   * validators after that room was made.
   */
  function UpdateProduct(s: Store, categories: set<Id>, brands: set<Id>, u: ProductUpdate): (out: Outcome<Store, Product>)
    ensures UpdateChecks(s, categories, brands, u).Err? ==>
      out.state == s && out.result.Err? && out.result.status == UpdateChecks(s, categories, brands, u).status
    ensures out.state.Keys == s.Keys
    ensures forall x :: x in s && x != u.id ==> SameButOrder(out.state[x], s[x])
    ensures u.displayOrder.None? ==> forall x :: x in s && x != u.id ==> out.state[x] == s[x]
    ensures out.result.Ok? ==> u.id in s && out.state[u.id] == Patch(s[u.id], u) && out.result.value == out.state[u.id]
  {
    match UpdateChecks(s, categories, brands, u)
    case Err(st, msg) => Outcome(s, Err(st, msg))
    case Ok(prev) =>
      var (cat, sub) := UpdateScope(prev, u);
      var moved := if u.displayOrder.Some? then HandleDisplayOrderUpdate(s, Some(u.id), u.displayOrder.value, cat, sub).value else s;
      assert Patch(moved[u.id], u) == Patch(prev, u);
      WriteUpdate(moved, u)
  }

  /** The final write of `updateProduct`: the patched document, unless the schema refuses a blank name. */
  function WriteUpdate(moved: Store, u: ProductUpdate): (out: Outcome<Store, Product>)
    requires u.id in moved
    ensures out.state.Keys == moved.Keys
    ensures forall x :: x in moved && x != u.id ==> out.state[x] == moved[x]
    ensures out.result.Err? <==> u.name.Some? && AllSpace(u.name.value)
    ensures out.result.Err? ==> out == Outcome(moved, Err(500, "Internal Server Error"))
    ensures out.result.Ok? ==> out.state[u.id] == Patch(moved[u.id], u) && out.result.value == out.state[u.id]
  {
    if u.name.Some? && AllSpace(u.name.value) then Outcome(moved, Err(500, "Internal Server Error"))
    else
      var doc := Patch(moved[u.id], u);
      Outcome(moved[u.id := doc], Ok(doc))
  }

  predicate OutsideUpdateScope(s: Store, u: ProductUpdate, x: Id)
    requires u.id in s
  {
    x !in ScopeMembers(s, UpdateScope(s[u.id], u).0, UpdateScope(s[u.id], u).1)
  }

  /**
   * Products outside the scope the update ranks in are untouched, and
   * inside it they move by at most one position.
   */
  lemma UpdateFrame(s: Store, categories: set<Id>, brands: set<Id>, u: ProductUpdate)
    requires UpdateChecks(s, categories, brands, u).Ok?
    ensures forall x :: x in s && x != u.id && OutsideUpdateScope(s, u, x) ==>
      UpdateProduct(s, categories, brands, u).state[x] == s[x]
    ensures forall x :: x in s && x != u.id ==>
      UpdateProduct(s, categories, brands, u).state[x].displayOrder - s[x].displayOrder in {0, 1}
  {
    var (cat, sub) := UpdateScope(s[u.id], u);
    forall x | x in s && x != u.id
      ensures OutsideUpdateScope(s, u, x) ==> UpdateProduct(s, categories, brands, u).state[x] == s[x]
      ensures UpdateProduct(s, categories, brands, u).state[x].displayOrder - s[x].displayOrder in {0, 1}
    {
      if u.displayOrder.Some? {
        DisplayOrderUpdateEffect(s, Some(u.id), u.displayOrder.value, cat, sub, x);
      }
    }
  }

  /** SKUs are stored trimmed (the pre-save hook trims them). */
  predicate SkusTrimmed(s: Store)
  {
    forall x :: x in s ==> Trimmed(s[x].sku)
  }

  /** An accepted update never makes a name shared. */
  lemma UpdateKeepsNamesUnique(s: Store, categories: set<Id>, brands: set<Id>, u: ProductUpdate)
    requires NamesUnique(s) && NamesTrimmed(s)
    requires UpdateProduct(s, categories, brands, u).result.Ok?
    ensures NamesUnique(UpdateProduct(s, categories, brands, u).state)
    ensures NamesTrimmed(UpdateProduct(s, categories, brands, u).state)
  {
    var out := UpdateProduct(s, categories, brands, u);
    UpdatedNameFresh(s, categories, brands, u);
    if u.name.Some? {
      TrimmedIsFixpoint(u.name.value);
    }
    assert Trimmed(out.state[u.id].name);
    OneNameChanged(s, out.state, u.id);
  }

  /** Changing one product's name to a trimmed name no other product has keeps names unique and trimmed. */
  lemma OneNameChanged(s: Store, r: Store, id: Id)
    requires NamesUnique(s) && NamesTrimmed(s)
    requires r.Keys == s.Keys && id in s
    requires forall x :: x in s && x != id ==> r[x].name == s[x].name
    requires forall y :: y in s && y != id ==> r[id].name != s[y].name
    requires Trimmed(r[id].name)
    ensures NamesUnique(r) && NamesTrimmed(r)
  {
  }

  /** The name an accepted update writes belongs to no other product. */
  lemma UpdatedNameFresh(s: Store, categories: set<Id>, brands: set<Id>, u: ProductUpdate)
    requires NamesUnique(s) && NamesTrimmed(s)
    requires UpdateProduct(s, categories, brands, u).result.Ok?
    ensures forall y :: y in s && y != u.id ==> UpdateProduct(s, categories, brands, u).state[u.id].name != s[y].name
  {
    var written := UpdateProduct(s, categories, brands, u).state[u.id];
    assert UpdateChecks(s, categories, brands, u).Ok?;
    assert written == Patch(s[u.id], u);
    if u.name.Some? {
      var raw := u.name.value;
      assert !AllSpace(raw);
      if raw == s[u.id].name {
        TrimmedIsFixpoint(raw);
      } else {
        assert raw != "";
        assert !NameTaken(s, Trim(raw));
      }
    }
  }

  /**
   * The duplicate-name check of `updateProduct` compares the raw name with
   * the stored one but looks it up trimmed: the product's own name sent
   * with a leading space finds the product itself and is refused.
   */
  lemma PaddedOwnNameRefused(s: Store, categories: set<Id>, brands: set<Id>, u: ProductUpdate)
    requires u.id in s && s[u.id].name != [] && Trimmed(s[u.id].name)
    requires u.name == Some(" " + s[u.id].name)
    ensures UpdateChecks(s, categories, brands, u) == Err(400, "Product with this name already exists")
    ensures UpdateProduct(s, categories, brands, u) == Outcome(s, Err(400, "Product with this name already exists"))
  {
    var n := s[u.id].name;
    assert AllSpace(" ") && AllSpace([]);
    TrimPadded(" ", n, []);
    assert " " + n + [] == " " + n;
    assert |" " + n| != |n|;
  }

  /** An accepted update never makes a non-empty SKU shared, and SKUs stay trimmed. */
  lemma UpdateKeepsSkusUnique(s: Store, categories: set<Id>, brands: set<Id>, u: ProductUpdate)
    requires SkuIndexHolds(s) && SkusTrimmed(s)
    requires UpdateProduct(s, categories, brands, u).result.Ok?
    ensures SkuIndexHolds(UpdateProduct(s, categories, brands, u).state)
    ensures SkusTrimmed(UpdateProduct(s, categories, brands, u).state)
  {
    var r := UpdateProduct(s, categories, brands, u).state;
    assert UpdateChecks(s, categories, brands, u).Ok?;
    PatchedSkuUnique(s, u, r);
  }

  lemma PatchedSkuUnique(s: Store, u: ProductUpdate, r: Store)
    requires SkuIndexHolds(s) && SkusTrimmed(s)
    requires u.id in s && r.Keys == s.Keys
    requires forall x :: x in s && x != u.id ==> r[x].sku == s[x].sku
    requires r[u.id].sku == Patch(s[u.id], u).sku
    requires !(u.sku.Some? && u.sku.value != s[u.id].sku && SkuTaken(s, Trim(u.sku.value)))
    ensures SkuIndexHolds(r) && SkusTrimmed(r)
  {
    var sku := r[u.id].sku;
    PatchedSkuFresh(s, u, sku);
    forall x, y | x in r && y in r && x != y && r[x].sku != ""
      ensures r[x].sku != r[y].sku
    {
      if x != u.id && y != u.id {
        assert s[x].sku != s[y].sku;
      }
    }
  }

  /** The SKU a patch stores is trimmed and, when non-empty, held by no other product. */
  lemma PatchedSkuFresh(s: Store, u: ProductUpdate, sku: string)
    requires SkuIndexHolds(s) && SkusTrimmed(s)
    requires u.id in s && sku == Patch(s[u.id], u).sku
    requires !(u.sku.Some? && u.sku.value != s[u.id].sku && SkuTaken(s, Trim(u.sku.value)))
    ensures Trimmed(sku)
    ensures forall y :: y in s && y != u.id && sku != "" ==> s[y].sku != sku
  {
    if u.sku.Some? {
      TrimmedIsFixpoint(u.sku.value);
      if u.sku.value != s[u.id].sku {
        assert !SkuTaken(s, sku);
      } else {
        TrimmedIsFixpoint(s[u.id].sku);
      }
    }
  }

  // ---------------------------------------------------------------------
  // deleteProduct
  // ---------------------------------------------------------------------

  /** The store with the products `gone` removed. */
  function Without(s: Store, gone: set<Id>): (r: Store)
    ensures r.Keys == s.Keys - gone
    ensures forall x :: x in r ==> r[x] == s[x]
  {
    map x | x in s && x !in gone :: s[x]
  }

  /**
   * The products `deleteProduct` removes: the product itself and, unless it
   * is a variation, whatever `deleteMany({ parentId })` matches. The schema
   * declares no `parentId` path, so which documents that query matches is
   * up to the driver's handling of undeclared filter paths; it is the input
   * `matched`.
   */
  function Removed(s: Store, id: Id, matched: set<Id>): (gone: set<Id>)
    requires id in s
    ensures id in gone
    ensures s[id].isVariation ==> gone == {id}
    ensures !s[id].isVariation ==> gone == {id} + matched
  {
    if s[id].isVariation then {id} else {id} + matched
  }

  /**
   * `deleteProduct`: the product and, for a parent product, the matched
   * variations are removed, and the remaining ranked products of the
   * deleted product's scope are renumbered 1..N. The renumbering is total
   * here, so the deletion never fails because of it.
   */
  function DeleteProduct(s: Store, id: Id, matched: set<Id>): (out: Outcome<Store, ()>)
    ensures id !in s ==> out == Outcome(s, Err(404, "Product not found"))
    ensures id in s ==> out.result.Ok?
    ensures id in s && s[id].isVariation ==> out.state.Keys == s.Keys - {id}
    ensures id in s && !s[id].isVariation ==> out.state.Keys == s.Keys - {id} - matched
    ensures id in s ==> forall x :: x in out.state ==> SameButOrder(out.state[x], s[x])
    ensures id in s ==> forall x :: x in out.state && !InScope(s[x], s[id].category, s[id].subCategory) ==> out.state[x] == s[x]
  {
    if id !in s then Outcome(s, Err(404, "Product not found"))
    else
      Outcome(ReorderAfterDeletion(Without(s, Removed(s, id, matched)), s[id].category, s[id].subCategory), Ok(()))
  }

  /**
   * After a deletion the scope of the deleted product is dense again, has
   * lost exactly the removed products, and its remaining products keep their
   * relative order.
   */
  lemma DeleteRenumbersScope(s: Store, id: Id, matched: set<Id>, x: Id, y: Id)
    requires id in s
    ensures ScopeMembers(DeleteProduct(s, id, matched).state, s[id].category, s[id].subCategory)
         == ScopeMembers(s, s[id].category, s[id].subCategory) - Removed(s, id, matched)
    ensures Dense(OrdersOf(DeleteProduct(s, id, matched).state),
                  ScopeMembers(DeleteProduct(s, id, matched).state, s[id].category, s[id].subCategory))
    ensures x in ScopeMembers(s, s[id].category, s[id].subCategory) && y in ScopeMembers(s, s[id].category, s[id].subCategory)
      && x !in Removed(s, id, matched) && y !in Removed(s, id, matched) && s[x].displayOrder < s[y].displayOrder
      ==> DeleteProduct(s, id, matched).state[x].displayOrder < DeleteProduct(s, id, matched).state[y].displayOrder
  {
    var gone := Removed(s, id, matched);
    var rest := Without(s, gone);
    var cat := s[id].category;
    var sub := s[id].subCategory;
    assert ScopeMembers(rest, cat, sub) == ScopeMembers(s, cat, sub) - gone;
    ReorderAfterDeletionDense(rest, cat, sub);
    if x in ScopeMembers(s, cat, sub) && y in ScopeMembers(s, cat, sub)
      && x !in gone && y !in gone && s[x].displayOrder < s[y].displayOrder {
      ReorderAfterDeletionKeepsOrder(rest, cat, sub, x, y);
    }
  }
}
