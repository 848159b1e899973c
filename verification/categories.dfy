/**
 * Categories (models/categoryModel.js) and the sibling-ordering handlers of
 * controllers/categoryController.js: sequential renumbering, the gap check,
 * the repair of non-positive orders, creation with insertion, and the
 * up/down swap. A category's siblings are the categories with the same
 * `parentId` (`None` is the top level).
 */
module Categories {
  import opened Common
  import opened Ranking
  import Helper

  /** The hidden parent of soft-deleted categories; it cannot be deleted. */
  const ProtectedId: Id := 0x68a62a1208e4173abbf49e0e
  /** The "deletedCategories" category that deleted subtrees are moved under. */
  const DeleteTarget: Id := 0x68a82786992db6bf45ed73ce

  datatype Category = Category(
    name: string,
    parentId: Option<Id>,
    level: int,
    displayOrder: int,
    hasChildren: bool,
    isDeleted: bool)

  type CatStore = map<Id, Category>

  /** Schema defaults: top level, level 1, order 1, no children, not deleted. */
  function NewCategory(name: string): (c: Category)
    ensures c.parentId.None? && c.level == 1 && c.displayOrder == 1
    ensures !c.hasChildren && !c.isDeleted
  {
    Category(name, None, 1, 1, false, false)
  }

  // ---------------------------------------------------------------------
  // Sibling groups and their orders
  // ---------------------------------------------------------------------

  /** `find({ parentId: parent })`: every category under `parent`, deleted or not. */
  function Siblings(s: CatStore, parent: Option<Id>): (g: set<Id>)
    ensures g <= s.Keys
    ensures forall x :: x in g <==> x in s && s[x].parentId == parent
  {
    set x | x in s && s[x].parentId == parent
  }

  /** The siblings that are not soft-deleted. */
  function LiveSiblings(s: CatStore, parent: Option<Id>): (g: set<Id>)
    ensures g <= s.Keys
    ensures forall x :: x in g <==> x in s && s[x].parentId == parent && !s[x].isDeleted
  {
    set x | x in s && s[x].parentId == parent && !s[x].isDeleted
  }

  /** The group `reorderSiblingsSequentially` renumbers: live siblings except the protected category. */
  function RenumberGroup(s: CatStore, parent: Option<Id>): (g: set<Id>)
    ensures g <= s.Keys
    ensures forall x :: x in g <==> x in LiveSiblings(s, parent) && x != ProtectedId
  {
    LiveSiblings(s, parent) - {ProtectedId}
  }

  function CatOrders(s: CatStore): (o: Orders)
    ensures o.Keys == s.Keys
    ensures forall x :: x in s ==> o[x] == s[x].displayOrder
  {
    map x | x in s :: s[x].displayOrder
  }

  /** Two versions of a category that differ at most in their display order. */
  predicate SameButOrder(c: Category, d: Category)
  {
    c.(displayOrder := d.displayOrder) == d
  }

  /** Give every category the order `o` names for it. */
  function WithCatOrders(s: CatStore, o: Orders): (r: CatStore)
    requires o.Keys == s.Keys
    ensures r.Keys == s.Keys
    ensures forall x :: x in s ==> SameButOrder(r[x], s[x])
    ensures CatOrders(r) == o
  {
    var r := map x | x in s :: s[x].(displayOrder := o[x]);
    assert CatOrders(r) == o;
    r
  }

  lemma WithOwnCatOrders(s: CatStore)
    ensures WithCatOrders(s, CatOrders(s)) == s
  {
    var r := WithCatOrders(s, CatOrders(s));
    forall x | x in s
      ensures r[x] == s[x]
    {
      assert r[x].displayOrder == CatOrders(r)[x];
    }
  }

  /** The largest order among `xs` (0 for none). */
  function MaxIn(o: Orders, xs: seq<Id>): (m: int)
    requires forall i :: 0 <= i < |xs| ==> xs[i] in o
    ensures forall i :: 0 <= i < |xs| ==> o[xs[i]] <= m
    ensures xs == [] ==> m == 0
    ensures xs != [] ==> exists i :: 0 <= i < |xs| && o[xs[i]] == m
  {
    if xs == [] then 0
    else if |xs| == 1 then o[xs[0]]
    else
      var rest := MaxIn(o, xs[1..]);
      assert forall i :: 1 <= i < |xs| ==> xs[i] == xs[1..][i - 1];
      if o[xs[0]] >= rest then o[xs[0]] else rest
  }

  /** `Math.max(...group.map(c => c.displayOrder))`, or 0 for an empty group. */
  function MaxOrder(o: Orders, g: set<Id>): (m: int)
    requires g <= o.Keys
    ensures forall x :: x in g ==> o[x] <= m
    ensures g == {} ==> m == 0
    ensures g != {} ==> exists x :: x in g && o[x] == m
  {
    var xs := Sort(o, g);
    var m := MaxIn(o, xs);
    assert forall x :: x in g ==> exists i :: 0 <= i < |xs| && xs[i] == x;
    m
  }

  /** In a dense group the largest order is the group's size. */
  lemma DenseMax(o: Orders, g: set<Id>)
    requires g <= o.Keys && Dense(o, g)
    ensures MaxOrder(o, g) == |g|
  {
    if g != {} {
      DenseImage(o, g);
      assert |g| in Interval(1, |g|);
      assert |g| in Image(o, g);
      var x :| x in g && o[x] == |g|;
    }
  }

  // ---------------------------------------------------------------------
  // reorderSiblingsSequentially / validateAndFixDisplayOrder
  // ---------------------------------------------------------------------

  /**
   * `reorderSiblingsSequentially(parent)`: the live siblings other than the
   * protected category, listed by order, get the orders 1..N.
   */
  function ReorderSiblingsSequentially(s: CatStore, parent: Option<Id>): (r: CatStore)
    ensures r.Keys == s.Keys
    ensures forall x :: x in s ==> SameButOrder(r[x], s[x])
    ensures forall x :: x in s && x !in RenumberGroup(s, parent) ==> r[x] == s[x]
    ensures CatOrders(r) == Renumber(CatOrders(s), RenumberGroup(s, parent))
  {
    WithCatOrders(s, Renumber(CatOrders(s), RenumberGroup(s, parent)))
  }

  /** Renumbering leaves the group dense, in its previous relative order. */
  lemma ReorderSiblingsDense(s: CatStore, parent: Option<Id>, x: Id, y: Id)
    ensures Dense(CatOrders(ReorderSiblingsSequentially(s, parent)), RenumberGroup(s, parent))
    ensures (x in RenumberGroup(s, parent) && y in RenumberGroup(s, parent) && Before(CatOrders(s), x, y)
      ==> (ReorderSiblingsSequentially(s, parent)[x].displayOrder
        < ReorderSiblingsSequentially(s, parent)[y].displayOrder))
  {
    var o := CatOrders(s);
    var g := RenumberGroup(s, parent);
    RenumberDense(o, g);
    if x in g && y in g && Before(o, x, y) {
      RenumberKeepsOrder(o, g, x, y);
    }
  }

  /**
   * `validateAndFixDisplayOrder(parent)`: walk the live siblings (the
   * protected category included) in order; if one of them is not at its
   * position, renumber.
   */
  function ValidateAndFixDisplayOrder(s: CatStore, parent: Option<Id>): (r: CatStore)
    ensures Sequential(CatOrders(s), LiveSiblings(s, parent)) ==> r == s
    ensures !Sequential(CatOrders(s), LiveSiblings(s, parent)) ==> r == ReorderSiblingsSequentially(s, parent)
  {
    if Sequential(CatOrders(s), LiveSiblings(s, parent)) then s
    else ReorderSiblingsSequentially(s, parent)
  }

  /** Stores that differ only in display orders have the same sibling groups. */
  lemma SameGroups(s: CatStore, r: CatStore, parent: Option<Id>)
    requires r.Keys == s.Keys && forall x :: x in s ==> SameButOrder(r[x], s[x])
    ensures LiveSiblings(r, parent) == LiveSiblings(s, parent)
    ensures RenumberGroup(r, parent) == RenumberGroup(s, parent)
    ensures Siblings(r, parent) == Siblings(s, parent)
  {
  }

  /** Renumbering a group a second time changes nothing. */
  lemma ReorderSiblingsIdempotent(s: CatStore, parent: Option<Id>)
    ensures ReorderSiblingsSequentially(ReorderSiblingsSequentially(s, parent), parent)
         == ReorderSiblingsSequentially(s, parent)
  {
    var r := ReorderSiblingsSequentially(s, parent);
    var g := RenumberGroup(s, parent);
    SameGroups(s, r, parent);
    RenumberIdempotent(CatOrders(s), g);
    assert Renumber(CatOrders(r), g) == CatOrders(r);
    WithOwnCatOrders(r);
  }

  /** The fix-up is idempotent: running it a second time changes nothing. */
  lemma ValidateAndFixIdempotent(s: CatStore, parent: Option<Id>)
    ensures ValidateAndFixDisplayOrder(ValidateAndFixDisplayOrder(s, parent), parent)
         == ValidateAndFixDisplayOrder(s, parent)
  {
    if !Sequential(CatOrders(s), LiveSiblings(s, parent)) {
      ReorderSiblingsIdempotent(s, parent);
    }
  }

  /**
   * When the protected category is not among the live siblings, the group
   * is left sequential: the check and the renumbering see the same group.
   */
  lemma ValidateAndFixSequential(s: CatStore, parent: Option<Id>)
    requires ProtectedId !in LiveSiblings(s, parent)
    ensures Sequential(CatOrders(ValidateAndFixDisplayOrder(s, parent)), LiveSiblings(s, parent))
  {
    var o := CatOrders(s);
    assert RenumberGroup(s, parent) == LiveSiblings(s, parent);
    if !Sequential(o, LiveSiblings(s, parent)) {
      RenumberIsSequential(o, LiveSiblings(s, parent));
    }
  }

  // ---------------------------------------------------------------------
  // fixInvalidDisplayOrders
  // ---------------------------------------------------------------------

  /** A category whose order is not positive. */
  predicate Invalid(c: Category) { c.displayOrder <= 0 }

  /** The live siblings of `x`, `x` itself excluded. */
  function OtherLiveSiblings(s: CatStore, x: Id): (g: set<Id>)
    requires x in s
    ensures g <= s.Keys && x !in g
  {
    LiveSiblings(s, s[x].parentId) - {x}
  }

  /** One repair: the category goes after all its live siblings. */
  function FixOne(s: CatStore, x: Id): (r: CatStore)
    requires x in s
    ensures r.Keys == s.Keys && SameButOrder(r[x], s[x])
    ensures forall y :: y in s && y != x ==> r[y] == s[y]
    ensures forall y :: y in OtherLiveSiblings(s, x) ==> r[y].displayOrder < r[x].displayOrder
    ensures OtherLiveSiblings(s, x) == {} ==> r[x].displayOrder == 1
  {
    s[x := s[x].(displayOrder := MaxOrder(CatOrders(s), OtherLiveSiblings(s, x)) + 1)]
  }

  /**
   * `fixInvalidDisplayOrders`: the categories found with a non-positive
   * order, in the order the query returns them, are repaired one after
   * another; each repair sees the earlier ones.
   */
  function FixInvalidDisplayOrders(s: CatStore, found: seq<Id>): (r: CatStore)
    ensures r.Keys == s.Keys
    ensures forall y :: y in s ==> SameButOrder(r[y], s[y])
    ensures forall y :: y in s && y !in found ==> r[y] == s[y]
    decreases |found|
  {
    if found == [] then s
    else
      var t := if found[0] in s && Invalid(s[found[0]]) then FixOne(s, found[0]) else s;
      FixInvalidDisplayOrders(t, found[1..])
  }

  /**
   * A repaired category is placed after its live siblings, but its order is
   * positive only when some sibling's is: when all of them are negative (two
   * siblings at -5 and -3, say), the repaired category stays invalid.
   */
  lemma FixOneCanStayInvalid(s: CatStore, x: Id)
    requires x in s && OtherLiveSiblings(s, x) != {}
    requires forall y :: y in OtherLiveSiblings(s, x) ==> s[y].displayOrder < 0
    ensures Invalid(FixOne(s, x)[x])
  {
    var m := MaxOrder(CatOrders(s), OtherLiveSiblings(s, x));
    var y :| y in OtherLiveSiblings(s, x) && CatOrders(s)[y] == m;
  }

  // ---------------------------------------------------------------------
  // createCategory
  // ---------------------------------------------------------------------

  const MaxCallerLevel: int := 5
  const MaxChildLevel: int := 4

  /** Where a new category goes: its parent (None for a missing or unknown parent) and its level. */
  datatype Placement = Placement(parent: Option<Id>, level: int)

  /**
   * The level checks of `createCategory`: the caller's level (default 1)
   * must not exceed 5; an existing parent makes the level its own plus one,
   * which must not exceed 4; an unknown parent is ignored and the caller's
   * level kept.
   */
  function PlaceCategory(s: CatStore, parentId: Option<Id>, level: int): (r: Result<Placement>)
    ensures r.Ok? <==> (level <= MaxCallerLevel
      && (parentId.Some? && parentId.value in s ==> s[parentId.value].level + 1 <= MaxChildLevel))
    ensures r.Err? ==> r.status == 400
    ensures r.Ok? && parentId.Some? && parentId.value in s
      ==> r.value == Placement(parentId, s[parentId.value].level + 1)
    ensures r.Ok? && (parentId.None? || parentId.value !in s) ==> r.value == Placement(None, level)
  {
    if level > MaxCallerLevel then Err(400, "SubCategories level cannot be added!Max level is 4")
    else match parentId
      case None => Ok(Placement(None, level))
      case Some(p) =>
        if p !in s then Ok(Placement(None, level))
        else if s[p].level + 1 > MaxChildLevel then Err(400, "SubCategories level cannot be added!Max level is 3")
        else Ok(Placement(Some(p), s[p].level + 1))
  }

  /** Some category already has this name at this level (deleted ones included). */
  predicate NameTaken(s: CatStore, name: string, level: int)
  {
    exists x :: x in s && s[x].name == name && s[x].level == level
  }

  /**
   * The order of a new category. An explicit order must lie in 1..max+1,
   * where max is the largest order among all its future siblings (deleted
   * ones included), and pushes every sibling at or after it up by one;
   * otherwise the category goes after the last sibling (order 1 when there
   * is none).
   */
  function OrderNewCategory(s: CatStore, parent: Option<Id>, displayOrder: Option<int>): (r: Result<(CatStore, int)>)
    ensures r.Err? <==> (displayOrder.Some?
      && (displayOrder.value < 1 || displayOrder.value > MaxOrder(CatOrders(s), Siblings(s, parent)) + 1))
    ensures r.Err? ==> r.status == 400
    ensures r.Ok? ==> r.value.0.Keys == s.Keys
    ensures r.Ok? ==> forall x :: x in s ==> SameButOrder(r.value.0[x], s[x])
    ensures r.Ok? ==> forall x :: x in s && x !in Siblings(s, parent) ==> r.value.0[x] == s[x]
    ensures r.Ok? && displayOrder.Some? ==> r.value.1 == displayOrder.value
  {
    var g := Siblings(s, parent);
    var o := CatOrders(s);
    var max := MaxOrder(o, g);
    match displayOrder
    case Some(d) =>
      if d < 1 || d > max + 1 then Err(400, "Display order must be between 1 and max + 1")
      else Ok((WithCatOrders(s, Shift(o, g, d, None, 1)), d))
    case None =>
      Ok((s, if g == {} then 1 else max + 1))
  }

  /** Two versions of a category that differ at most in `hasChildren`. */
  predicate SameButFlag(c: Category, d: Category)
  {
    c.(hasChildren := d.hasChildren) == d
  }

  /** `parent.hasChildren = true` for the parent of a new category. */
  function MarkParent(s: CatStore, parent: Option<Id>): (r: CatStore)
    ensures r.Keys == s.Keys
    ensures forall x :: x in s ==> SameButFlag(r[x], s[x])
    ensures forall x :: x in s ==> r[x].hasChildren == (s[x].hasChildren || parent == Some(x))
  {
    if parent.Some? && parent.value in s then s[parent.value := s[parent.value].(hasChildren := true)] else s
  }

  /** Setting a flag changes neither the sibling groups, the orders nor the taken names. */
  lemma MarkParentKeeps(s: CatStore, parent: Option<Id>, q: Option<Id>, name: string, level: int)
    ensures Siblings(MarkParent(s, parent), q) == Siblings(s, q)
    ensures CatOrders(MarkParent(s, parent)) == CatOrders(s)
    ensures NameTaken(MarkParent(s, parent), name, level) <==> NameTaken(s, name, level)
  {
    var r := MarkParent(s, parent);
    if NameTaken(r, name, level) {
      var x :| x in r && r[x].name == name && r[x].level == level;
      assert s[x].name == name && s[x].level == level;
    }
    if NameTaken(s, name, level) {
      var x :| x in s && s[x].name == name && s[x].level == level;
      assert r[x].name == name && r[x].level == level;
    }
  }

  /** The name check and the ordering of `createCategory`, once the placement is known. */
  function InsertCategory(s: CatStore, newId: Id, name: string, p: Placement, displayOrder: Option<int>): (out: Outcome<CatStore, Id>)
    requires newId !in s
    ensures out.result.Err? ==> out.state == s && out.result.status == 400
    ensures out.result.Err? <==> NameTaken(s, name, p.level) || OrderNewCategory(s, p.parent, displayOrder).Err?
    ensures out.result.Ok? ==> out.result.value == newId && out.state.Keys == s.Keys + {newId}
    ensures out.result.Ok? ==> forall x :: x in s ==> SameButOrder(out.state[x], s[x])
    ensures out.result.Ok? ==> var c := out.state[newId];
      c.name == name && c.parentId == p.parent && c.level == p.level && !c.hasChildren && !c.isDeleted
  {
    if NameTaken(s, name, p.level) then Outcome(s, Err(400, "There is an existing category on the same name"))
    else match OrderNewCategory(s, p.parent, displayOrder)
      case Err(st, msg) => Outcome(s, Err(st, msg))
      case Ok((s2, order)) =>
        Outcome(s2[newId := Category(name, p.parent, p.level, order, false, false)], Ok(newId))
  }

  /**
   * `createCategory`. The parent's `hasChildren` is set before the name
   * check, so a rejected duplicate name still leaves it set.
   */
  function CreateCategory(s: CatStore, newId: Id, name: string, parentId: Option<Id>,
                          level: int, displayOrder: Option<int>): (out: Outcome<CatStore, Id>)
    requires newId !in s
    ensures PlaceCategory(s, parentId, level).Err?
      ==> out.state == s && out.result.Err? && out.result.status == 400
    ensures out.result.Err? ==> out.state.Keys == s.Keys
    ensures PlaceCategory(s, parentId, level).Ok? && NameTaken(s, name, PlaceCategory(s, parentId, level).value.level)
      ==> out.result.Err? && out.state == MarkParent(s, PlaceCategory(s, parentId, level).value.parent)
    ensures out.result.Ok? ==> out.result.value == newId && out.state.Keys == s.Keys + {newId}
    ensures out.result.Ok? ==> var p := PlaceCategory(s, parentId, level).value;
      var c := out.state[newId];
      c.name == name && c.parentId == p.parent && c.level == p.level && !c.hasChildren && !c.isDeleted
  {
    match PlaceCategory(s, parentId, level)
    case Err(st, msg) => Outcome(s, Err(st, msg))
    case Ok(p) =>
      MarkParentKeeps(s, p.parent, p.parent, name, p.level);
      InsertCategory(MarkParent(s, p.parent), newId, name, p, displayOrder)
  }

  /** A created category sits at most at level 5, and at most at level 4 under a parent. */
  lemma CreateLevelBounds(s: CatStore, newId: Id, name: string, parentId: Option<Id>, level: int, displayOrder: Option<int>)
    requires newId !in s
    requires CreateCategory(s, newId, name, parentId, level, displayOrder).result.Ok?
    ensures var c := CreateCategory(s, newId, name, parentId, level, displayOrder).state[newId];
      c.level <= MaxCallerLevel && (c.parentId.Some? ==> c.level <= MaxChildLevel)
  {
  }

  /** No two categories share a (name, level) pair. */
  predicate NamesUnique(s: CatStore)
  {
    forall x, y :: x in s && y in s && x != y ==> (s[x].name, s[x].level) != (s[y].name, s[y].level)
  }

  /** A created category never duplicates an existing (name, level) pair. */
  lemma CreateKeepsNamesUnique(s: CatStore, newId: Id, name: string, parentId: Option<Id>, level: int, displayOrder: Option<int>)
    requires newId !in s && NamesUnique(s)
    ensures NamesUnique(CreateCategory(s, newId, name, parentId, level, displayOrder).state)
  {
    CreateKeepsNames(s, newId, name, parentId, level, displayOrder);
  }

  /** Creating renames and relevels nothing, and the new category's pair is fresh. */
  lemma CreateKeepsNames(s: CatStore, newId: Id, name: string, parentId: Option<Id>, level: int, displayOrder: Option<int>)
    requires newId !in s
    ensures var out := CreateCategory(s, newId, name, parentId, level, displayOrder);
      forall x :: x in s ==> x in out.state && out.state[x].name == s[x].name && out.state[x].level == s[x].level
    ensures var out := CreateCategory(s, newId, name, parentId, level, displayOrder);
      out.result.Err? ==> out.state.Keys == s.Keys
    ensures var out := CreateCategory(s, newId, name, parentId, level, displayOrder);
      out.result.Ok? ==> forall x :: x in s ==> (s[x].name, s[x].level) != (name, out.state[newId].level)
  {
    var out := CreateCategory(s, newId, name, parentId, level, displayOrder);
    var r := out.state;
    if out.result.Ok? {
      var p := PlaceCategory(s, parentId, level).value;
      var s1 := MarkParent(s, p.parent);
      MarkParentKeeps(s, p.parent, p.parent, name, p.level);
      assert !NameTaken(s1, name, p.level);
      assert r == InsertCategory(s1, newId, name, p, displayOrder).state;
      forall x | x in s
        ensures (r[x].name, r[x].level) == (s[x].name, s[x].level)
      {
        assert SameButOrder(r[x], s1[x]) && SameButFlag(s1[x], s[x]);
      }
      forall x | x in s
        ensures (s[x].name, s[x].level) != (name, p.level)
      {
        assert s1[x].name == s[x].name && s1[x].level == s[x].level;
      }
    } else {
      forall x | x in s
        ensures x in r && (r[x].name, r[x].level) == (s[x].name, s[x].level)
      {
      }
    }
  }

  /** Inserting keeps a dense sibling group dense, the new category included. */
  lemma InsertKeepsSiblingsDense(s: CatStore, newId: Id, name: string, p: Placement, displayOrder: Option<int>)
    requires newId !in s && Dense(CatOrders(s), Siblings(s, p.parent))
    requires InsertCategory(s, newId, name, p, displayOrder).result.Ok?
    ensures var r := InsertCategory(s, newId, name, p, displayOrder).state;
      Dense(CatOrders(r), Siblings(r, p.parent))
  {
    var g := Siblings(s, p.parent);
    var o := CatOrders(s);
    var (s2, order) := OrderNewCategory(s, p.parent, displayOrder).value;
    var c := Category(name, p.parent, p.level, order, false, false);
    var r := s2[newId := c];
    assert r == InsertCategory(s, newId, name, p, displayOrder).state;
    InsertedSiblings(s, s2, newId, c);
    assert Siblings(r, p.parent) == g + {newId};
    CatOrdersUpdate(s2, newId, c);
    if displayOrder.Some? {
      var d := displayOrder.value;
      DenseMax(o, g);
      InsertKeepsDense(o, g, newId, d);
      assert s2 == WithCatOrders(s, Shift(o, g, d, None, 1));
      assert CatOrders(r) == Shift(o, g, d, None, 1)[newId := d];
    } else {
      DenseMax(o, g);
      AppendKeepsDense(o, g, newId);
      assert s2 == s && order == |g| + 1;
      assert CatOrders(r) == o[newId := |g| + 1];
    }
  }

  lemma InsertedSiblings(s: CatStore, s2: CatStore, newId: Id, c: Category)
    requires newId !in s && s2.Keys == s.Keys && forall x :: x in s ==> SameButOrder(s2[x], s[x])
    ensures Siblings(s2[newId := c], c.parentId) == Siblings(s, c.parentId) + {newId}
  {
  }

  lemma CatOrdersUpdate(s: CatStore, x: Id, c: Category)
    ensures CatOrders(s[x := c]) == CatOrders(s)[x := c.displayOrder]
  {
  }

  /** A sibling group that is dense stays dense with the new category in it. */
  lemma CreateKeepsSiblingsDense(s: CatStore, newId: Id, name: string, parentId: Option<Id>, level: int, displayOrder: Option<int>)
    requires newId !in s
    requires PlaceCategory(s, parentId, level).Ok?
    requires Dense(CatOrders(s), Siblings(s, PlaceCategory(s, parentId, level).value.parent))
    requires CreateCategory(s, newId, name, parentId, level, displayOrder).result.Ok?
    ensures var p := PlaceCategory(s, parentId, level).value;
      var r := CreateCategory(s, newId, name, parentId, level, displayOrder).state;
      Dense(CatOrders(r), Siblings(r, p.parent))
  {
    var p := PlaceCategory(s, parentId, level).value;
    MarkParentKeeps(s, p.parent, p.parent, name, p.level);
    InsertKeepsSiblingsDense(MarkParent(s, p.parent), newId, name, p, displayOrder);
  }

  // ---------------------------------------------------------------------
  // reorderCategory (swap with the neighbour above or below)
  // ---------------------------------------------------------------------

  /** The live siblings other than the category itself and the protected one. */
  function OtherSiblings(s: CatStore, id: Id): (g: set<Id>)
    requires id in s
    ensures g <= s.Keys && id !in g && ProtectedId !in g
    ensures forall x :: x in g <==> x in LiveSiblings(s, s[id].parentId) && x != id && x != ProtectedId
  {
    LiveSiblings(s, s[id].parentId) - {id, ProtectedId}
  }

  /** The number of leading entries of `xs` whose order is at most `v`. */
  function FirstAbove(o: Orders, xs: seq<Id>, v: int): (k: nat)
    requires forall i :: 0 <= i < |xs| ==> xs[i] in o
    ensures k <= |xs|
    ensures forall i :: 0 <= i < k ==> o[xs[i]] <= v
    ensures k < |xs| ==> o[xs[k]] > v
  {
    if xs == [] || o[xs[0]] > v then 0
    else
      var k := FirstAbove(o, xs[1..], v);
      assert forall i :: 1 <= i < |xs| ==> xs[i] == xs[1..][i - 1];
      1 + k
  }

  /**
   * Where an entry sits in a listing by order: it is at or below `v` exactly
   * when it is among the first `FirstAbove` entries, the first entry above
   * `v` precedes every later one, and every earlier entry precedes the last
   * one at or below `v`.
   */
  lemma ListingPosition(o: Orders, xs: seq<Id>, v: int, i: nat)
    requires forall j :: 0 <= j < |xs| ==> xs[j] in o
    requires Sorted(o, xs) && i < |xs|
    ensures var k := FirstAbove(o, xs, v);
      (o[xs[i]] <= v <==> i < k)
      && (k < i ==> Before(o, xs[k], xs[i]))
      && (i + 1 < k ==> Before(o, xs[i], xs[k - 1]))
  {
    var k := FirstAbove(o, xs, v);
    if i > k {
      assert Before(o, xs[k], xs[i]);
    }
  }

  /** A listing of `g`: every entry is in `g`, every member of `g` is listed, in order. */
  predicate ListsGroup(o: Orders, g: set<Id>, xs: seq<Id>)
    requires g <= o.Keys
  {
    (forall i :: 0 <= i < |xs| ==> xs[i] in g)
    && (forall x :: x in g ==> x in xs)
    && Sorted(o, xs)
  }

  /** The last entry of a listing at or below `v`, if any. */
  function LastAtOrBelow(o: Orders, xs: seq<Id>, v: int): Option<Id>
    requires forall i :: 0 <= i < |xs| ==> xs[i] in o
  {
    var k := FirstAbove(o, xs, v);
    if k == 0 then None else Some(xs[k - 1])
  }

  /** The first entry of a listing above `v`, if any. */
  function FirstAboveEntry(o: Orders, xs: seq<Id>, v: int): Option<Id>
    requires forall i :: 0 <= i < |xs| ==> xs[i] in o
  {
    var k := FirstAbove(o, xs, v);
    if k == |xs| then None else Some(xs[k])
  }

  /**
   * The sibling a category moving up swaps with: the last one, in listing
   * order, whose order is at most the category's.
   */
  function UpNeighbour(o: Orders, g: set<Id>, v: int): (n: Option<Id>)
    requires g <= o.Keys
    ensures n.None? <==> forall y :: y in g ==> o[y] > v
    ensures n.Some? ==> n.value in g && o[n.value] <= v
    ensures n.Some? ==> forall y :: y in g && y != n.value && o[y] <= v ==> Before(o, y, n.value)
  {
    UpNeighbourFacts(o, g, Sort(o, g), v);
    LastAtOrBelow(o, Sort(o, g), v)
  }

  lemma UpNeighbourFacts(o: Orders, g: set<Id>, xs: seq<Id>, v: int)
    requires g <= o.Keys && ListsGroup(o, g, xs)
    ensures var n := LastAtOrBelow(o, xs, v);
      && (n.None? <==> forall y :: y in g ==> o[y] > v)
      && (n.Some? ==> n.value in g && o[n.value] <= v)
      && (n.Some? ==> forall y :: y in g && y != n.value && o[y] <= v ==> Before(o, y, n.value))
  {
    var k := FirstAbove(o, xs, v);
    forall y | y in g
      ensures k == 0 ==> o[y] > v
      ensures 0 < k && y != xs[k - 1] && o[y] <= v ==> Before(o, y, xs[k - 1])
    {
      var i :| 0 <= i < |xs| && xs[i] == y;
      ListingPosition(o, xs, v, i);
    }
  }

  /**
   * The sibling a category moving down swaps with: the first one, in
   * listing order, whose order exceeds the category's.
   */
  function DownNeighbour(o: Orders, g: set<Id>, v: int): (n: Option<Id>)
    requires g <= o.Keys
    ensures n.None? <==> forall y :: y in g ==> o[y] <= v
    ensures n.Some? ==> n.value in g && o[n.value] > v
    ensures n.Some? ==> forall y :: y in g && y != n.value && o[y] > v ==> Before(o, n.value, y)
  {
    DownNeighbourFacts(o, g, Sort(o, g), v);
    FirstAboveEntry(o, Sort(o, g), v)
  }

  lemma DownNeighbourFacts(o: Orders, g: set<Id>, xs: seq<Id>, v: int)
    requires g <= o.Keys && ListsGroup(o, g, xs)
    ensures var n := FirstAboveEntry(o, xs, v);
      && (n.None? <==> forall y :: y in g ==> o[y] <= v)
      && (n.Some? ==> n.value in g && o[n.value] > v)
      && (n.Some? ==> forall y :: y in g && y != n.value && o[y] > v ==> Before(o, n.value, y))
  {
    var k := FirstAbove(o, xs, v);
    forall y | y in g
      ensures k == |xs| ==> o[y] <= v
      ensures k < |xs| && y != xs[k] && o[y] > v ==> Before(o, xs[k], y)
    {
      var i :| 0 <= i < |xs| && xs[i] == y;
      ListingPosition(o, xs, v, i);
    }
  }

  /** Swap the orders of two categories. */
  function SwapOrders(s: CatStore, a: Id, b: Id): (r: CatStore)
    requires a in s && b in s
    ensures r.Keys == s.Keys
    ensures r[a] == s[a].(displayOrder := s[b].displayOrder)
    ensures r[b] == s[b].(displayOrder := s[a].displayOrder)
    ensures forall x :: x in s && x != a && x != b ==> r[x] == s[x]
  {
    s[a := s[a].(displayOrder := s[b].displayOrder)][b := s[b].(displayOrder := s[a].displayOrder)]
  }

  datatype Direction = Up | Down | Other

  const MoveMessage := "Cannot move category in that direction"
  /** The message of the CastError `findById` throws for text that is not an ObjectId, abbreviated. */
  const CastMessage := "Cast to ObjectId failed"

  /**
   * `reorderCategory(categoryId, direction)`: the category is listed with
   * its other siblings (after those of equal order, as the stable sort puts
   * it) and swaps orders with the neighbour above (`up`) or below (`down`);
   * with no neighbour in that direction nothing changes.
   */
  function ReorderCategory(s: CatStore, id: Id, dir: Direction): (out: Outcome<CatStore, ()>)
    ensures id !in s ==> out == Outcome(s, Err(404, "Category not found"))
    ensures out.result.Err? ==> out.state == s
    ensures out.state.Keys == s.Keys
    ensures dir.Other? && id in s ==> out.result.Err? && out.result.status == 400
  {
    if id !in s then Outcome(s, Err(404, "Category not found"))
    else
      var o := CatOrders(s);
      var g := OtherSiblings(s, id);
      var v := s[id].displayOrder;
      var n := if dir == Up then UpNeighbour(o, g, v) else if dir == Down then DownNeighbour(o, g, v) else None;
      if n.Some? then Outcome(SwapOrders(s, id, n.value), Ok(()))
      else Outcome(s, Err(400, MoveMessage))
  }

  /** `n` is the sibling right above `id`: the last one, in listing order, at or before its order. */
  predicate IsUpNeighbour(s: CatStore, id: Id, n: Id)
    requires id in s
  {
    n in OtherSiblings(s, id) && s[n].displayOrder <= s[id].displayOrder
    && forall y :: y in OtherSiblings(s, id) && y != n && s[y].displayOrder <= s[id].displayOrder
         ==> Before(CatOrders(s), y, n)
  }

  /** `n` is the sibling right below `id`: the first one, in listing order, after its order. */
  predicate IsDownNeighbour(s: CatStore, id: Id, n: Id)
    requires id in s
  {
    n in OtherSiblings(s, id) && s[n].displayOrder > s[id].displayOrder
    && forall y :: y in OtherSiblings(s, id) && y != n && s[y].displayOrder > s[id].displayOrder
         ==> Before(CatOrders(s), n, y)
  }

  /**
   * Moving up swaps with the last sibling at or before the category's order;
   * it fails exactly when there is none.
   */
  lemma ReorderUpPicksNeighbour(s: CatStore, id: Id)
    requires id in s
    ensures var out := ReorderCategory(s, id, Up);
      out.result.Err? <==> forall y :: y in OtherSiblings(s, id) ==> s[y].displayOrder > s[id].displayOrder
    ensures var out := ReorderCategory(s, id, Up);
      out.result.Ok? ==> exists n :: IsUpNeighbour(s, id, n) && out.state == SwapOrders(s, id, n)
  {
    var o, g, v := CatOrders(s), OtherSiblings(s, id), s[id].displayOrder;
    var n := UpNeighbour(o, g, v);
    var out := ReorderCategory(s, id, Up);
    assert out == if n.Some? then Outcome(SwapOrders(s, id, n.value), Ok(()))
      else Outcome(s, Err(400, MoveMessage));
    if n.Some? {
      assert IsUpNeighbour(s, id, n.value);
    }
  }

  /**
   * Moving down swaps with the first sibling after the category's order; it
   * fails exactly when there is none.
   */
  lemma ReorderDownPicksNeighbour(s: CatStore, id: Id)
    requires id in s
    ensures var out := ReorderCategory(s, id, Down);
      out.result.Err? <==> forall y :: y in OtherSiblings(s, id) ==> s[y].displayOrder <= s[id].displayOrder
    ensures var out := ReorderCategory(s, id, Down);
      out.result.Ok? ==> exists n :: IsDownNeighbour(s, id, n) && out.state == SwapOrders(s, id, n)
  {
    var o, g, v := CatOrders(s), OtherSiblings(s, id), s[id].displayOrder;
    var n := DownNeighbour(o, g, v);
    var out := ReorderCategory(s, id, Down);
    assert out == if n.Some? then Outcome(SwapOrders(s, id, n.value), Ok(()))
      else Outcome(s, Err(400, MoveMessage));
    if n.Some? {
      assert IsDownNeighbour(s, id, n.value);
    }
  }

  /**
   * The listing `reorderCategory` walks: the other siblings by order, with
   * the category itself placed after those of equal order.
   */
  function Listing(s: CatStore, id: Id): (xs: seq<Id>)
    requires id in s
    ensures |xs| == |OtherSiblings(s, id)| + 1
    ensures forall i :: 0 <= i < |xs| ==> xs[i] in s
  {
    var g := OtherSiblings(s, id);
    var ys := Sort(CatOrders(s), g);
    InsertAt(ys, FirstAbove(CatOrders(s), ys, s[id].displayOrder), id)
  }

  /** `ys` with `x` inserted at position `k`. */
  function InsertAt(ys: seq<Id>, k: nat, x: Id): (xs: seq<Id>)
    requires k <= |ys|
    ensures |xs| == |ys| + 1 && xs[k] == x
    ensures forall i :: 0 <= i < k ==> xs[i] == ys[i]
    ensures forall i :: k < i < |xs| ==> xs[i] == ys[i - 1]
  {
    ys[..k] + [x] + ys[k..]
  }

  /**
   * `reorderCategory` on the request text. Text that is not an ObjectId
   * fails the cast (500). The position of the category is found by
   * comparing each listed id, printed, with the text: `up` needs a
   * position above 0, `down` a position before the last one, and a text
   * that matches no entry (position -1) always moves down, swapping the
   * category with the head of the listing.
   */
  function ReorderRequest(s: CatStore, idText: string, dir: Direction): (out: Outcome<CatStore, ()>)
    ensures Helper.GetMongoId(Some(idText)).None? ==> out == Outcome(s, Err(500, CastMessage))
    ensures var q := Helper.GetMongoId(Some(idText));
      q.Some? && q.value !in s ==> out == Outcome(s, Err(404, "Category not found"))
    ensures out.result.Err? ==> out.state == s
    ensures out.state.Keys == s.Keys
    ensures dir.Other? ==> out.result.Err?
    ensures out.result.Ok? ==> exists n :: n in s && out.state == SwapOrders(s, Helper.ParseHex(idText), n)
  {
    var q := Helper.GetMongoId(Some(idText));
    if q.None? then Outcome(s, Err(500, CastMessage))
    else if q.value !in s then Outcome(s, Err(404, "Category not found"))
    else
      var id := Helper.ParseHex(idText);
      var xs := Listing(s, id);
      var n := ListedNeighbour(xs, Helper.FirstPrinted(xs, idText), dir);
      if n.Some? then Outcome(SwapOrders(s, id, n.value), Ok(()))
      else Outcome(s, Err(400, MoveMessage))
  }

  /**
   * The entry next to position `at` of a listing in the direction of the
   * move, with a missing position read as -1: `up` takes the entry before
   * a position above 0, `down` the entry after a position before the last.
   */
  function ListedNeighbour(xs: seq<Id>, at: Option<nat>, dir: Direction): (n: Option<Id>)
    requires at.Some? ==> at.value < |xs|
    ensures n.Some? ==> n.value in xs
    ensures dir.Other? ==> n.None?
    ensures at.None? && dir.Up? ==> n.None?
    ensures at.None? && dir.Down? && xs != [] ==> n == Some(xs[0])
  {
    var i := if at.Some? then at.value as int else -1;
    if dir == Up && i > 0 then Some(xs[i - 1])
    else if dir == Down && i < |xs| - 1 then Some(xs[i + 1])
    else None
  }

  /** Swapping a category with itself changes nothing. */
  lemma SwapSelf(s: CatStore, a: Id)
    requires a in s
    ensures SwapOrders(s, a, a) == s
  {
    assert SwapOrders(s, a, a)[a] == s[a];
  }

  /**
   * When every category id is an ObjectId (below 16^24), sending the
   * printed id is the same as naming the category: `up` and `down` pick the
   * neighbours `ReorderCategory` describes.
   */
  lemma ReorderRequestOfPrinted(s: CatStore, id: Id, dir: Direction)
    requires id in s
    requires forall x :: x in s ==> x < Helper.Pow16(Helper.ObjectIdDigits)
    ensures ReorderRequest(s, Helper.IdString(id), dir) == ReorderCategory(s, id, dir)
  {
    Helper.MongoIdRoundTrip(id);
    var xs := Listing(s, id);
    var k := OwnPosition(s, id);
    Helper.FirstPrintedAt(xs, k);
    ListingNeighbours(s, id);
  }

  /** A request spelling the id in lower case is the move `ReorderCategory` describes. */
  lemma ReorderLowercaseText(s: CatStore, idText: string, dir: Direction)
    requires Helper.IsObjectIdString(idText)
    requires forall i :: 0 <= i < |idText| ==> !('A' <= idText[i] <= 'F')
    requires Helper.ParseHex(idText) in s
    requires forall x :: x in s ==> x < Helper.Pow16(Helper.ObjectIdDigits)
    ensures ReorderRequest(s, idText, dir) == ReorderCategory(s, Helper.ParseHex(idText), dir)
  {
    Helper.FormatParseHex(idText);
    ReorderRequestOfPrinted(s, Helper.ParseHex(idText), dir);
  }

  /** Where the category itself stands in its listing; every entry before it is another sibling. */
  function OwnPosition(s: CatStore, id: Id): (k: nat)
    requires id in s
    ensures k < |Listing(s, id)| && Listing(s, id)[k] == id
    ensures forall j :: 0 <= j < k ==> Listing(s, id)[j] != id
  {
    var ys := Sort(CatOrders(s), OtherSiblings(s, id));
    var k := FirstAbove(CatOrders(s), ys, s[id].displayOrder);
    assert forall j :: 0 <= j < k ==> Listing(s, id)[j] == ys[j] && ys[j] in OtherSiblings(s, id);
    k
  }

  /** The entries next to the category in its listing are the neighbours `ReorderCategory` swaps with. */
  lemma ListingNeighbours(s: CatStore, id: Id)
    requires id in s
    ensures var o, g, v := CatOrders(s), OtherSiblings(s, id), s[id].displayOrder;
      && ListedNeighbour(Listing(s, id), Some(OwnPosition(s, id)), Up) == UpNeighbour(o, g, v)
      && ListedNeighbour(Listing(s, id), Some(OwnPosition(s, id)), Down) == DownNeighbour(o, g, v)
  {
    var o, g, v := CatOrders(s), OtherSiblings(s, id), s[id].displayOrder;
    var ys := Sort(o, g);
    assert Listing(s, id) == InsertAt(ys, FirstAbove(o, ys, v), id);
    assert UpNeighbour(o, g, v) == LastAtOrBelow(o, ys, v);
    assert DownNeighbour(o, g, v) == FirstAboveEntry(o, ys, v);
  }

  /** An id sent with an upper-case hex digit prints as no entry of the listing. */
  lemma UppercaseUnlisted(s: CatStore, idText: string, k: nat)
    requires Helper.IsObjectIdString(idText) && k < |idText| && 'A' <= idText[k] <= 'F'
    requires Helper.ParseHex(idText) in s
    ensures Helper.FirstPrinted(Listing(s, Helper.ParseHex(idText)), idText).None?
  {
    var xs := Listing(s, Helper.ParseHex(idText));
    var at := Helper.FirstPrinted(xs, idText);
    if at.Some? {
      Helper.FormatHexLowercase(xs[at.value], Helper.ObjectIdDigits, k);
    }
  }

  /**
   * An id sent with an upper-case hex digit prints as no listed id, so the
   * category can never move up.
   */
  lemma UppercaseCannotMoveUp(s: CatStore, idText: string, k: nat)
    requires Helper.IsObjectIdString(idText) && k < |idText| && 'A' <= idText[k] <= 'F'
    requires Helper.ParseHex(idText) in s
    ensures ReorderRequest(s, idText, Up) == Outcome(s, Err(400, MoveMessage))
  {
    UppercaseUnlisted(s, idText, k);
  }

  /**
   * The head of the listing: the first other sibling when one is at or
   * before the category's order, the category itself otherwise.
   */
  lemma ListingHead(s: CatStore, id: Id)
    requires id in s
    ensures var o, g := CatOrders(s), OtherSiblings(s, id);
      (exists y :: y in g && s[y].displayOrder <= s[id].displayOrder) ==> IsFirst(o, g, Listing(s, id)[0])
    ensures (forall y :: y in OtherSiblings(s, id) ==> s[y].displayOrder > s[id].displayOrder) ==>
      Listing(s, id)[0] == id
  {
    var o, g, v := CatOrders(s), OtherSiblings(s, id), s[id].displayOrder;
    var ys := Sort(o, g);
    var j := FirstAbove(o, ys, v);
    assert Listing(s, id) == InsertAt(ys, j, id);
    if j == 0 {
      forall y | y in g
        ensures o[y] > v
      {
        var i :| 0 <= i < |ys| && ys[i] == y;
        ListingPosition(o, ys, v, i);
      }
    } else {
      SortedHeadFirst(o, ys);
      assert o[ys[0]] <= v;
    }
  }

  /**
   * An id sent with an upper-case hex digit always moves down: the category
   * swaps orders with the first of its siblings when one is listed before
   * it, and with itself (no change) otherwise, wherever it stands.
   */
  lemma UppercaseDownSwapsWithHead(s: CatStore, idText: string, k: nat)
    requires Helper.IsObjectIdString(idText) && k < |idText| && 'A' <= idText[k] <= 'F'
    requires Helper.ParseHex(idText) in s
    ensures var id := Helper.ParseHex(idText);
      (exists y :: y in OtherSiblings(s, id) && s[y].displayOrder <= s[id].displayOrder) ==>
        exists n :: IsFirst(CatOrders(s), OtherSiblings(s, id), n)
          && ReorderRequest(s, idText, Down) == Outcome(SwapOrders(s, id, n), Ok(()))
    ensures var id := Helper.ParseHex(idText);
      (forall y :: y in OtherSiblings(s, id) ==> s[y].displayOrder > s[id].displayOrder) ==>
        ReorderRequest(s, idText, Down) == Outcome(s, Ok(()))
  {
    var id := Helper.ParseHex(idText);
    UppercaseDownHead(s, idText, k);
    ListingHead(s, id);
    SwapSelf(s, id);
  }

  /** An unlisted id moves down by swapping with the head of the listing. */
  lemma UppercaseDownHead(s: CatStore, idText: string, k: nat)
    requires Helper.IsObjectIdString(idText) && k < |idText| && 'A' <= idText[k] <= 'F'
    requires Helper.ParseHex(idText) in s
    ensures var id := Helper.ParseHex(idText);
      ReorderRequest(s, idText, Down) == Outcome(SwapOrders(s, id, Listing(s, id)[0]), Ok(()))
  {
    UppercaseUnlisted(s, idText, k);
  }

  /** A swap keeps a dense sibling group dense. */
  lemma SwapKeepsDense(s: CatStore, a: Id, b: Id, g: set<Id>)
    requires a in g && b in g && g <= s.Keys
    requires Dense(CatOrders(s), g)
    ensures Dense(CatOrders(SwapOrders(s, a, b)), g)
  {
    var o := CatOrders(s);
    var r := CatOrders(SwapOrders(s, a, b));
    forall x, y | x in g && y in g && r[x] == r[y]
      ensures x == y
    {
      var x' := if x == a then b else if x == b then a else x;
      var y' := if y == a then b else if y == b then a else y;
      assert r[x] == o[x'] && r[y] == o[y'];
    }
  }
}
