/**
 * Tier pricing. A caller's role string is lowercased and looked up in a
 * role table; a role missing from the table (or no role at all) is priced
 * as Franchise. The table and the fallback when a product has no price for
 * the tier differ between call sites:
 *   - product view (`getProduct`):  tier price ?? base price
 *   - cart view (`getCart`):        tier price ?? base price ?? 0
 *   - order snapshot (`placeOrder`): tier price || 0
 *   - cart replace (`updateCart`):  same fallback as the cart view, but its
 *     table has the key "ChainStore", which no lowercased role can equal.
 */
module Pricing {
  import opened Common

  datatype Tier = Retailer | Wholesale | ChainStore | Franchise

  /** The role table of `getProduct`, `getCart` and `placeOrder`. */
  const RoleTable: map<string, Tier> :=
    map["wholesale" := Wholesale, "retailer" := Retailer,
        "chainstore" := ChainStore, "franchise" := Franchise]

  /** The role table of `updateCart`: its chain-store key is not lowercase. */
  const CartUpdateRoleTable: map<string, Tier> :=
    map["wholesale" := Wholesale, "retailer" := Retailer,
        "ChainStore" := ChainStore, "franchise" := Franchise]

  /** `table[role.toLowerCase()] || "Franchise"`, with an absent role priced as Franchise. */
  function LookupTier(table: map<string, Tier>, role: Option<string>): (t: Tier)
    ensures role.None? ==> t == Franchise
    ensures role.Some? && Lower(role.value) in table ==> t == table[Lower(role.value)]
    ensures role.Some? && Lower(role.value) !in table ==> t == Franchise
  {
    match role
    case None => Franchise
    case Some(r) => if Lower(r) in table then table[Lower(r)] else Franchise
  }

  /** The tier the product view, the cart view and order placement charge. */
  function TierOf(role: Option<string>): (t: Tier)
    ensures t == Wholesale <==> role.Some? && Lower(role.value) == "wholesale"
    ensures t == Retailer <==> role.Some? && Lower(role.value) == "retailer"
    ensures t == ChainStore <==> role.Some? && Lower(role.value) == "chainstore"
  {
    LookupTier(RoleTable, role)
  }

  /** The tier `updateCart` charges. */
  function TierOfCartUpdate(role: Option<string>): (t: Tier)
    ensures t != ChainStore
    ensures t == Wholesale <==> role.Some? && Lower(role.value) == "wholesale"
    ensures t == Retailer <==> role.Some? && Lower(role.value) == "retailer"
  {
    match role
    case None => Franchise
    case Some(r) =>
      NoLowerIsChainStore(r);
      LookupTier(CartUpdateRoleTable, role)
  }

  lemma NoLowerIsChainStore(r: string)
    ensures Lower(r) != "ChainStore"
  {
    if |r| > 0 {
      assert Lower(r)[0] != 'C';
    }
  }

  /** The role's letter case never matters. */
  lemma TierIgnoresCase(r: string)
    ensures TierOf(Some(r)) == TierOf(Some(Lower(r)))
    ensures TierOfCartUpdate(Some(r)) == TierOfCartUpdate(Some(Lower(r)))
  {
    LowerIdempotent(r);
  }

  /**
   * `updateCart` agrees with the other call sites on every role except
   * those that lowercase to "chainstore", which it prices as Franchise.
   */
  lemma CartUpdateTierAgrees(role: Option<string>)
    ensures TierOf(role) != ChainStore ==> TierOfCartUpdate(role) == TierOf(role)
    ensures TierOf(role) == ChainStore ==> TierOfCartUpdate(role) == Franchise
  {
  }

  /** A ChainStore account really exists: its own role string reaches the ChainStore tier. */
  lemma ChainStoreRoleExamples()
    ensures TierOf(Some("ChainStore")) == ChainStore
    ensures TierOfCartUpdate(Some("ChainStore")) == Franchise
    ensures TierOf(Some("Admin")) == Franchise
    ensures TierOf(Some("SalesPerson")) == Franchise
  {
    assert Lower("ChainStore") == "chainstore";
    assert Lower("Admin") == "admin";
    assert Lower("SalesPerson") == "salesperson";
  }

  // ---------------------------------------------------------------------
  // Prices of one product
  // ---------------------------------------------------------------------

  /**
   * The priced part of a product: the optional base `price` and the
   * `pricing` table (a tier absent from the map has no `price` set).
   */
  datatype Priced = Priced(price: Option<real>, pricing: map<Tier, real>)

  /** The schema requires a price for every tier and a base price. */
  predicate Complete(p: Priced)
  {
    p.price.Some? && Retailer in p.pricing && Wholesale in p.pricing
    && ChainStore in p.pricing && Franchise in p.pricing
  }

  /** Product view: `pricing[tier]?.price ?? price`. */
  function ViewPrice(p: Priced, t: Tier): (r: Option<real>)
    ensures r.None? <==> t !in p.pricing && p.price.None?
    ensures t in p.pricing ==> r == Some(p.pricing[t])
  {
    if t in p.pricing then Some(p.pricing[t]) else p.price
  }

  /** Cart view and cart replace: `pricing[tier]?.price ?? price ?? 0`. */
  function CartPrice(p: Priced, t: Tier): (r: real)
    ensures t in p.pricing ==> r == p.pricing[t]
  {
    if t in p.pricing then p.pricing[t] else p.price.GetOr(0.0)
  }

  /** Order snapshot: `pricing[tier]?.price || 0`; the base price is never consulted. */
  function OrderPrice(p: Priced, t: Tier): (r: real)
    ensures t !in p.pricing ==> r == 0.0
  {
    if t in p.pricing then p.pricing[t] else 0.0
  }

  /** The three fallbacks are one price when the product has a price for the tier. */
  lemma FallbacksAgreeOnTierPrice(p: Priced, t: Tier)
    requires t in p.pricing
    ensures ViewPrice(p, t) == Some(CartPrice(p, t))
    ensures CartPrice(p, t) == OrderPrice(p, t)
  {
  }

  /** For every product that meets the schema, the three call sites charge the same. */
  lemma FallbacksAgreeOnCompleteProducts(p: Priced, t: Tier)
    requires Complete(p)
    ensures ViewPrice(p, t) == Some(OrderPrice(p, t))
    ensures CartPrice(p, t) == OrderPrice(p, t)
  {
  }

  /**
   * How the fallbacks relate on every product: the cart charges the view
   * price or 0, and the order snapshot charges the tier price or 0.
   */
  lemma FallbacksRelate(p: Priced, t: Tier)
    ensures CartPrice(p, t) == ViewPrice(p, t).GetOr(0.0)
    ensures OrderPrice(p, t) == (if t in p.pricing then CartPrice(p, t) else 0.0)
    ensures t !in p.pricing ==> ViewPrice(p, t) == p.price
  {
  }

  // ---------------------------------------------------------------------
  // What the product view shows as `pricing`
  // ---------------------------------------------------------------------

  /** Who asks for the product: nobody signed in, or a user with an optional role. */
  datatype Viewer = Anonymous | SignedIn(role: Option<string>)

  /** The `pricing` field of the product view: one price, or the whole table. */
  datatype Shown = OnePrice(price: Option<real>) | AllTiers(table: map<Tier, real>)

  const AdminRole: string := "Admin"

  /**
   * `getProduct`'s `pricingToReturn`: an anonymous viewer sees the
   * Franchise tier price, with no base-price fallback (`pricing` is a
   * nested path, so a product without a Franchise price shows it as
   * undefined); the exact role "Admin" sees the whole table; anyone else
   * sees the view price of their tier.
   */
  function ShownPricing(p: Priced, viewer: Viewer): (r: Shown)
    ensures viewer.Anonymous? ==> r.OnePrice? && (r.price.Some? <==> Franchise in p.pricing)
    ensures viewer.Anonymous? && Franchise in p.pricing ==> r.price == ViewPrice(p, Franchise)
    ensures r.AllTiers? <==> viewer.SignedIn? && viewer.role == Some(AdminRole)
    ensures r.AllTiers? ==> r.table == p.pricing
    ensures (viewer.SignedIn? && viewer.role != Some(AdminRole))
      ==> r == OnePrice(ViewPrice(p, TierOf(viewer.role)))
  {
    match viewer
    case Anonymous =>
      OnePrice(if Franchise in p.pricing then Some(p.pricing[Franchise]) else None)
    case SignedIn(role) =>
      if role == Some(AdminRole) then AllTiers(p.pricing)
      else OnePrice(ViewPrice(p, TierOf(role)))
  }

  /**
   * An anonymous viewer, a user without a role and a user whose role is not
   * one of the four tiers all see the Franchise price, when the product has
   * one.
   */
  lemma UnknownRolesSeeFranchisePrice(p: Priced, role: Option<string>)
    requires Franchise in p.pricing
    requires role != Some(AdminRole)
    requires role.Some? ==> Lower(role.value) !in RoleTable
    ensures ShownPricing(p, SignedIn(role)) == ShownPricing(p, Anonymous)
  {
  }

  /**
   * Without a Franchise price the two differ: a signed-in user without a
   * tier sees the base price, an anonymous viewer sees nothing, whatever
   * the base price.
   */
  lemma AnonymousSkipsBasePrice(p: Priced)
    requires Franchise !in p.pricing
    ensures ShownPricing(p, Anonymous) == OnePrice(None)
    ensures ShownPricing(p, SignedIn(None)) == OnePrice(p.price)
  {
  }
}
