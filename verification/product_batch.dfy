/**
 * `updateProductsDisplayOrder` (controllers/productController.js): a batch
 * of (product id, requested order) pairs. Every entry is checked before
 * anything is written; then the entries are grouped by the scope of their
 * product and, inside each group, listed by requested order (a stable
 * sort: equal requests keep the batch's order) and given the orders 1..k.
 *
 * The entries of a batch are addressed by their position, so a group is a
 * set of positions and the requested orders are a ranking of positions; the
 * stable sort is then exactly the listing of the ranking vocabulary, whose
 * tie-break is the smaller position.
 */
module ProductBatch {
  import opened Common
  import opened Ranking
  import opened Products

  /** One entry of the batch; None is a missing (or unparseable) id or order. */
  datatype Entry = Entry(id: Option<Id>, displayOrder: Option<int>)

  /** The grouping key `sub_<subCategory>` or `cat_<category>`. */
  datatype ScopeKey = SubKey(sub: Id) | CatKey(cat: Id)

  function KeyOf(p: Product): (k: ScopeKey)
    ensures k.SubKey? <==> p.subCategory.Some?
  {
    if p.subCategory.Some? then SubKey(p.subCategory.value) else CatKey(p.category)
  }

  /** Every entry names an existing product and an order. */
  predicate ValidBatch(s: Store, es: seq<Entry>)
  {
    forall i :: 0 <= i < |es| ==> es[i].id.Some? && es[i].displayOrder.Some? && es[i].id.value in s
  }

  /** The requested order of each position. */
  function Requested(s: Store, es: seq<Entry>): (o: Orders)
    requires ValidBatch(s, es)
    ensures forall p: Id :: p in o <==> p < |es|
    ensures forall p: Id :: p < |es| ==> o[p] == es[p].displayOrder.value
  {
    map p: Id | p < |es| :: es[p].displayOrder.value
  }

  /** The scope key of the product at a position. */
  function KeyAt(s: Store, es: seq<Entry>, p: nat): ScopeKey
    requires ValidBatch(s, es) && p < |es|
  {
    KeyOf(s[es[p].id.value])
  }

  /** The positions whose product has scope key `k`. */
  function Group(s: Store, es: seq<Entry>, k: ScopeKey): (g: set<Id>)
    requires ValidBatch(s, es)
    ensures forall p: Id :: p in g <==> p < |es| && KeyAt(s, es, p) == k
  {
    set p: Id | p < |es| && KeyAt(s, es, p) == k
  }

  /** The order the batch gives the entry at position `p`: its rank in its group. */
  function Rank(s: Store, es: seq<Entry>, p: nat): int
    requires ValidBatch(s, es) && p < |es|
  {
    var g := Group(s, es, KeyAt(s, es, p));
    Renumber(Requested(s, es), g)[p]
  }

  /** The scope keys in order of first appearance (the insertion order of the grouping object). */
  function Keys(s: Store, es: seq<Entry>, n: nat): (ks: seq<ScopeKey>)
    requires ValidBatch(s, es) && n <= |es|
    ensures forall p :: 0 <= p < n ==> KeyAt(s, es, p) in ks
    ensures forall i :: 0 <= i < |ks| ==> exists p :: 0 <= p < n && KeyAt(s, es, p) == ks[i]
  {
    if n == 0 then []
    else
      var ks := Keys(s, es, n - 1);
      if KeyAt(s, es, n - 1) in ks then ks else ks + [KeyAt(s, es, n - 1)]
  }

  /** The positions in the order they are written: group by group, each listed by requested order. */
  function Walk(s: Store, es: seq<Entry>, ks: seq<ScopeKey>): (w: seq<Id>)
    requires ValidBatch(s, es)
    ensures forall i :: 0 <= i < |w| ==> w[i] < |es| && KeyAt(s, es, w[i]) in ks
    ensures forall p :: 0 <= p < |es| && KeyAt(s, es, p) in ks ==> p in w
  {
    if ks == [] then []
    else Sort(Requested(s, es), Group(s, es, ks[0])) + Walk(s, es, ks[1..])
  }

  /**
   * The writes of one group: the group listed by requested order, the i-th
   * product given `i + 1`, which is its rank in the group.
   */
  function GroupWrites(s: Store, es: seq<Entry>, k: ScopeKey): (ws: seq<(Id, int)>)
    requires ValidBatch(s, es)
    ensures var srt := Sort(Requested(s, es), Group(s, es, k));
      |ws| == |srt| && forall i :: 0 <= i < |ws| ==> ws[i] == (es[srt[i]].id.value, Rank(s, es, srt[i]))
  {
    var srt := Sort(Requested(s, es), Group(s, es, k));
    ListedRanks(s, es, k);
    seq(|srt|, i requires 0 <= i < |srt| => (es[srt[i]].id.value, i + 1))
  }

  /** The i-th position of a group's listing has rank i + 1. */
  lemma ListedRanks(s: Store, es: seq<Entry>, k: ScopeKey)
    requires ValidBatch(s, es)
    ensures var srt := Sort(Requested(s, es), Group(s, es, k));
      forall i :: 0 <= i < |srt| ==> srt[i] < |es| && Rank(s, es, srt[i]) == i + 1
  {
    var srt := Sort(Requested(s, es), Group(s, es, k));
    forall i | 0 <= i < |srt|
      ensures srt[i] < |es| && Rank(s, es, srt[i]) == i + 1
    {
      assert srt[i] in Group(s, es, k);
      assert KeyAt(s, es, srt[i]) == k;
    }
  }

  /** The writes group after group, in the order the groups' keys first appear. */
  function Writes(s: Store, es: seq<Entry>, ks: seq<ScopeKey>): (ws: seq<(Id, int)>)
    requires ValidBatch(s, es)
    ensures var w := Walk(s, es, ks);
      |ws| == |w| && forall i :: 0 <= i < |ws| ==> ws[i] == (es[w[i]].id.value, Rank(s, es, w[i]))
  {
    if ks == [] then [] else GroupWrites(s, es, ks[0]) + Writes(s, es, ks[1..])
  }

  /** The writes `findByIdAndUpdate(id, { displayOrder })`, one after another. */
  function Apply(s: Store, ws: seq<(Id, int)>): (r: Store)
    requires forall i :: 0 <= i < |ws| ==> ws[i].0 in s
    ensures r.Keys == s.Keys
    ensures forall x :: x in s ==> SameButOrder(r[x], s[x])
    decreases |ws|
  {
    if ws == [] then s
    else
      var t := Apply(s, ws[..|ws| - 1]);
      var (x, d) := ws[|ws| - 1];
      t[x := t[x].(displayOrder := d)]
  }

  /** `updateProductsDisplayOrder`: the store afterwards and the answer. */
  function UpdateProductsDisplayOrder(s: Store, es: seq<Entry>): (out: Outcome<Store, ()>)
    ensures es == [] ==> out == Outcome(s, Err(400, "Products array is required"))
    ensures es != [] && !ValidBatch(s, es) ==> out == Outcome(s, Err(500, "Internal Server Error"))
    ensures out.result.Ok? <==> es != [] && ValidBatch(s, es)
    ensures out.state.Keys == s.Keys
    ensures forall x :: x in s ==> SameButOrder(out.state[x], s[x])
  {
    if es == [] then Outcome(s, Err(400, "Products array is required"))
    else if !ValidBatch(s, es) then Outcome(s, Err(500, "Internal Server Error"))
    else
      var ws := Writes(s, es, Keys(s, es, |es|));
      Outcome(Apply(s, ws), Ok(()))
  }

  /** A product no write names keeps its order. */
  lemma {:induction false} ApplyFrame(s: Store, ws: seq<(Id, int)>, x: Id)
    requires forall i :: 0 <= i < |ws| ==> ws[i].0 in s
    requires x in s && forall i :: 0 <= i < |ws| ==> ws[i].0 != x
    ensures Apply(s, ws)[x] == s[x]
    decreases |ws|
  {
    if ws != [] {
      ApplyFrame(s, ws[..|ws| - 1], x);
    }
  }

  /** When every write to product `x` writes `v` and the `j`-th one does, `x` ends with order `v`. */
  lemma {:induction false} ApplySettles(s: Store, ws: seq<(Id, int)>, x: Id, v: int, j: nat)
    requires forall i :: 0 <= i < |ws| ==> ws[i].0 in s
    requires forall i :: 0 <= i < |ws| && ws[i].0 == x ==> ws[i].1 == v
    requires j < |ws| && ws[j].0 == x
    ensures Apply(s, ws)[x].displayOrder == v
    decreases |ws|
  {
    if ws[|ws| - 1].0 != x {
      assert ws[..|ws| - 1][j] == ws[j];
      ApplySettles(s, ws[..|ws| - 1], x, v, j);
    }
  }

  /** No two entries name the same product. */
  predicate DistinctIds(es: seq<Entry>)
  {
    forall i, j :: 0 <= i < j < |es| ==> es[i].id != es[j].id
  }

  /**
   * With distinct products, each named product ends with its rank in its
   * group, and every other product keeps its order.
   */
  lemma BatchAssignsRanks(s: Store, es: seq<Entry>, p: nat, x: Id)
    requires es != [] && ValidBatch(s, es) && DistinctIds(es)
    requires p < |es| && x in s
    ensures UpdateProductsDisplayOrder(s, es).state[es[p].id.value].displayOrder == Rank(s, es, p)
    ensures (forall i :: 0 <= i < |es| ==> es[i].id != Some(x))
      ==> UpdateProductsDisplayOrder(s, es).state[x] == s[x]
  {
    var ks := Keys(s, es, |es|);
    WritesSettle(s, es, ks, p);
    if forall i :: 0 <= i < |es| ==> es[i].id != Some(x) {
      WritesFrame(s, es, ks, x);
    }
  }

  lemma WritesSettle(s: Store, es: seq<Entry>, ks: seq<ScopeKey>, p: nat)
    requires ValidBatch(s, es) && DistinctIds(es)
    requires p < |es| && KeyAt(s, es, p) in ks
    ensures Apply(s, Writes(s, es, ks))[es[p].id.value].displayOrder == Rank(s, es, p)
  {
    var ws := Writes(s, es, ks);
    WritesToEntryAgree(s, es, ks, p);
    var j := WritesReachEntry(s, es, ks, p);
    ApplySettles(s, ws, es[p].id.value, Rank(s, es, p), j);
  }

  /** Every write to the product of entry `p` writes the entry's rank. */
  lemma WritesToEntryAgree(s: Store, es: seq<Entry>, ks: seq<ScopeKey>, p: nat)
    requires ValidBatch(s, es) && DistinctIds(es) && p < |es|
    ensures var ws := Writes(s, es, ks);
      forall i :: 0 <= i < |ws| && ws[i].0 == es[p].id.value ==> ws[i].1 == Rank(s, es, p)
  {
    var w := Walk(s, es, ks);
    var ws := Writes(s, es, ks);
    forall i | 0 <= i < |ws| && ws[i].0 == es[p].id.value
      ensures ws[i].1 == Rank(s, es, p)
    {
      assert w[i] < |es| && es[w[i]].id == es[p].id;
      assert w[i] == p;
    }
  }

  /** The `j`-th write names the product of entry `p` when its group is written. */
  lemma WritesReachEntry(s: Store, es: seq<Entry>, ks: seq<ScopeKey>, p: nat) returns (j: nat)
    requires ValidBatch(s, es) && p < |es| && KeyAt(s, es, p) in ks
    ensures var ws := Writes(s, es, ks);
      (forall i :: 0 <= i < |ws| ==> ws[i].0 in s) && j < |ws| && ws[j].0 == es[p].id.value
  {
    var w := Walk(s, es, ks);
    j :| 0 <= j < |w| && w[j] == p;
  }

  lemma WritesFrame(s: Store, es: seq<Entry>, ks: seq<ScopeKey>, x: Id)
    requires ValidBatch(s, es)
    requires x in s && forall i :: 0 <= i < |es| ==> es[i].id != Some(x)
    ensures Apply(s, Writes(s, es, ks))[x] == s[x]
  {
    var w := Walk(s, es, ks);
    var ws := Writes(s, es, ks);
    forall i | 0 <= i < |ws|
      ensures ws[i].0 != x
    {
      assert w[i] < |es| && es[w[i]].id != Some(x);
    }
    ApplyFrame(s, ws, x);
  }

  /**
   * Inside one group the batch hands out each of 1..k once, in ascending
   * requested order; equal requests keep the order of the batch.
   */
  lemma BatchRanksDense(s: Store, es: seq<Entry>, k: ScopeKey)
    requires ValidBatch(s, es)
    ensures forall p: Id :: p in Group(s, es, k) ==> 1 <= Rank(s, es, p) <= |Group(s, es, k)|
    ensures forall p: Id, q: Id :: (p in Group(s, es, k) && q in Group(s, es, k) && p != q
      ==> Rank(s, es, p) != Rank(s, es, q))
  {
    RenumberDense(Requested(s, es), Group(s, es, k));
  }

  lemma BatchRanksFollowRequests(s: Store, es: seq<Entry>, p: nat, q: nat)
    requires ValidBatch(s, es) && p < |es| && q < |es| && KeyAt(s, es, p) == KeyAt(s, es, q)
    requires es[p].displayOrder.value < es[q].displayOrder.value
          || (es[p].displayOrder.value == es[q].displayOrder.value && p < q)
    ensures Rank(s, es, p) < Rank(s, es, q)
  {
    RenumberKeepsOrder(Requested(s, es), Group(s, es, KeyAt(s, es, p)), p, q);
  }
}
