/**
 * The handlers of controllers/categoryController.js that walk or rewrite
 * the category forest: `getCategoryPath`, `updateCategory` (rename,
 * re-parent with relevelling, move within the sibling group) and
 * `deleteCategory` (move the subtree under "deletedCategories", or
 * soft-delete below the protected category, then renumber).
 */
module CategoryTree {
  import opened Common
  import opened Ranking
  import opened Categories
  import opened CategoryWalks
  import Products
  import Helper

  // ---------------------------------------------------------------------
  // getCategoryPath
  // ---------------------------------------------------------------------

  /** The number of generations a fuel allows. */
  function Count(f: Fuel): (n: nat)
    ensures f.More? ==> n == Count(f.next) + 1
    ensures f == Spent <==> n == 0
  {
    if f == Spent then 0 else Count(f.next) + 1
  }

  /** The walk up stops above `c`: it is a root, or its parent is missing or soft-deleted. */
  predicate PathTop(s: CatStore, c: Id)
    requires c in s
  {
    s[c].parentId.None? || s[c].parentId.value !in s || s[s[c].parentId.value].isDeleted
  }

  /** Each entry of `p` is the parent of the next, and every entry but the last is live. */
  predicate ParentChain(s: CatStore, p: seq<Id>)
  {
    (forall i :: 0 <= i < |p| ==> p[i] in s)
    && (forall i :: 0 <= i < |p| - 1 ==> s[p[i + 1]].parentId == Some(p[i]) && !s[p[i]].isDeleted)
  }

  /**
   * The loop of `getCategoryPath` from `c` upwards: prepend the current
   * category, stop at a root, at a missing parent or at a soft-deleted
   * one. The source loop has no bound; `f` bounds the parent hops.
   */
  function PathUp(s: CatStore, c: Id, f: Fuel): (p: seq<Id>)
    requires c in s
    ensures 1 <= |p| <= Count(f) + 1 && p[|p| - 1] == c
    ensures ParentChain(s, p)
    ensures |p| <= Count(f) ==> PathTop(s, p[0])
    decreases f
  {
    if f == Spent || PathTop(s, c) then [c]
    else
      var p := PathUp(s, s[c].parentId.value, f.next);
      assert forall i :: 0 <= i < |p| ==> (p + [c])[i] == p[i];
      p + [c]
  }

  /** `getCategoryPath(id)`: 404 for a missing or soft-deleted category, else the path from the top down. */
  function GetCategoryPath(s: CatStore, id: Id, f: Fuel): (r: Result<seq<Id>>)
    ensures r.Err? <==> id !in s || s[id].isDeleted
    ensures r.Err? ==> r.status == 404
    ensures r.Ok? ==> |r.value| >= 1 && r.value[|r.value| - 1] == id && ParentChain(s, r.value)
    ensures r.Ok? ==> forall i :: 0 <= i < |r.value| ==> !s[r.value[i]].isDeleted
    ensures r.Ok? && |r.value| <= Count(f) ==> PathTop(s, r.value[0])
  {
    if id !in s || s[id].isDeleted then Err(404, "Category not found")
    else Ok(PathUp(s, id, f))
  }

  /** Every category whose parent exists sits one level below it. */
  predicate LevelsConsistent(s: CatStore)
  {
    forall x :: x in s && s[x].parentId.Some? && s[x].parentId.value in s ==>
      s[x].level == s[s[x].parentId.value].level + 1
  }

  /** Along a path in a store with consistent levels, the level grows by one per step. */
  lemma PathLevels(s: CatStore, p: seq<Id>, i: nat)
    requires ParentChain(s, p) && LevelsConsistent(s) && i < |p|
    ensures s[p[i]].level == s[p[0]].level + i
  {
    if i > 0 {
      PathLevels(s, p, i - 1);
      assert s[p[i]].parentId == Some(p[i - 1]);
    }
  }

  /**
   * In a store with consistent, positive levels, as many hops as the
   * category's level reach the top of its path: the walk never runs out
   * of fuel there.
   */
  lemma PathComplete(s: CatStore, c: Id, f: Fuel)
    requires c in s && LevelsConsistent(s)
    requires forall x :: x in s ==> s[x].level >= 1
    requires Count(f) >= s[c].level
    ensures PathTop(s, PathUp(s, c, f)[0])
  {
    var p := PathUp(s, c, f);
    PathLevels(s, p, |p| - 1);
  }

  /**
   * A live category that is its own parent: every extra hop of fuel adds
   * one more copy of it, so the loop of the source never ends there.
   */
  lemma {:induction false} SelfParentPathGrows(s: CatStore, c: Id, f: Fuel)
    requires c in s && s[c].parentId == Some(c) && !s[c].isDeleted
    ensures |PathUp(s, c, f)| == Count(f) + 1
    decreases f
  {
    if f.More? {
      SelfParentPathGrows(s, c, f.next);
    }
  }

  // ---------------------------------------------------------------------
  // updateCategory
  // ---------------------------------------------------------------------

  /** The body of an update request as sent: the ids are text, and `None` stands for an omitted field. */
  datatype UpdateBody = UpdateBody(
    id: Option<string>,
    name: string,
    level: Option<int>,
    parentId: Option<string>,
    displayOrder: Option<int>)

  /**
   * The body once the category it names has been found: the category's id,
   * with the parent still the text that was sent.
   */
  datatype CategoryUpdate = CategoryUpdate(
    id: Id,
    name: string,
    level: Option<int>,
    parentId: Option<string>,
    displayOrder: Option<int>)

  /** The parent the text names once cast: none when omitted or not an ObjectId. */
  function ParentOf(u: CategoryUpdate): (p: Option<Id>)
    ensures p.Some? <==> u.parentId.Some? && Helper.IsObjectIdString(u.parentId.value)
  {
    Helper.GetMongoId(u.parentId)
  }

  /** A parent sent as the empty string: falsy for the re-parent test, and not castable when written. */
  predicate BlankParent(u: CategoryUpdate)
  {
    u.parentId == Some("")
  }

  /** Two stores with the same links, orders and deletion marks: only flags and levels may differ. */
  predicate SameOrdering(s: CatStore, t: CatStore)
  {
    t.Keys == s.Keys
    && forall x :: x in s ==>
         t[x].parentId == s[x].parentId && t[x].displayOrder == s[x].displayOrder
         && t[x].isDeleted == s[x].isDeleted && t[x].name == s[x].name
  }

  lemma SameOrderingGroups(s: CatStore, t: CatStore, parent: Option<Id>)
    requires SameOrdering(s, t)
    ensures CatOrders(t) == CatOrders(s)
    ensures Siblings(t, parent) == Siblings(s, parent)
    ensures RenumberGroup(t, parent) == RenumberGroup(s, parent)
  {
    assert CatOrders(t) == CatOrders(s);
  }

  /** `hasChildren = false` on `p` when at most one category lists it as parent. */
  function ClearIfLast(s: CatStore, p: Id): (r: CatStore)
    ensures r.Keys == s.Keys
    ensures forall x :: x in s ==> SameButFlag(r[x], s[x])
    ensures forall x :: x in s && x != p ==> r[x] == s[x]
    ensures p in s ==> (r[p].hasChildren <==> s[p].hasChildren && |Siblings(s, Some(p))| > 1)
  {
    if p in s && |Siblings(s, Some(p))| <= 1 then s[p := s[p].(hasChildren := false)] else s
  }

  /**
   * The flag writes of a re-parent: the old parent loses `hasChildren` when
   * the category was its only child, the new parent gains it.
   */
  function ReparentFlags(s: CatStore, id: Id, p: Id): (r: CatStore)
    requires id in s
    ensures r.Keys == s.Keys
    ensures forall x :: x in s ==> SameButFlag(r[x], s[x])
    ensures p in s ==> r[p].hasChildren
  {
    var s1 := if s[id].parentId.Some? then ClearIfLast(s, s[id].parentId.value) else s;
    MarkParent(s1, Some(p))
  }

  /** The writes of a re-parent under `p`: the flags, then the levels below the category. */
  function Relevel(s: CatStore, id: Id, p: Id, f: Fuel): (r: CatStore)
    requires id in s && p in s
    ensures SameOrdering(s, r)
  {
    var sb := ReparentFlags(s, id, p);
    if s[id].hasChildren then UpdateChildLevels(sb, id, s[p].level + 1, f) else sb
  }

  /** The siblings an order change shifts: the live ones under the old parent, except the category and the protected one. */
  function OrderGroup(s: CatStore, parent: Option<Id>, id: Id): (g: set<Id>)
    ensures g <= s.Keys
    ensures forall x :: x in g <==> x in RenumberGroup(s, parent) && x != id
  {
    RenumberGroup(s, parent) - {id}
  }

  /** Give the category the order `target` inside its group, closing the slot it leaves. */
  function MoveCategory(s: CatStore, g: set<Id>, id: Id, target: int): (r: CatStore)
    requires id in s && g <= s.Keys
    ensures r.Keys == s.Keys
    ensures forall x :: x in s ==> SameButOrder(r[x], s[x])
    ensures CatOrders(r) == Move(CatOrders(s), g + {id}, id, target)
  {
    WithCatOrders(s, Move(CatOrders(s), g + {id}, id, target))
  }

  /**
   * The final write: name, parent (null when omitted) and level (kept when
   * none is given). A parent sent as the empty string fails the cast to an
   * ObjectId there, and nothing is written.
   */
  function Finish(s: CatStore, u: CategoryUpdate, lvl: Option<int>): (out: Outcome<CatStore, Category>)
    requires u.id in s
    ensures out.state.Keys == s.Keys
    ensures out.result.Err? <==> BlankParent(u)
    ensures out.result.Err? ==> out.state == s && out.result.status == 500
    ensures forall x :: x in s && x != u.id ==> out.state[x] == s[x]
    ensures out.result.Ok? ==>
      out.state[u.id] == out.result.value
      && out.result.value.name == u.name && out.result.value.parentId == ParentOf(u)
      && out.result.value.level == lvl.GetOr(s[u.id].level)
      && out.result.value.displayOrder == s[u.id].displayOrder
      && out.result.value.isDeleted == s[u.id].isDeleted
  {
    if BlankParent(u) then Outcome(s, Err(500, CastMessage))
    else
      var d := s[u.id].(name := u.name, parentId := ParentOf(u), level := lvl.GetOr(s[u.id].level));
      Outcome(s[u.id := d], Ok(d))
  }

  /**
   * `parentId && parentId !== category.parentId?.toString()`: a re-parent
   * happens when the parent text is not empty and differs from the current
   * parent's printed id (always, when there is no current parent).
   */
  predicate Reparents(s: CatStore, u: CategoryUpdate)
    requires u.id in s
  {
    u.parentId.Some? && u.parentId.value != ""
    && (s[u.id].parentId.None? || u.parentId.value != Helper.IdString(s[u.id].parentId.value))
  }

  /** An order change happens when an order is given and differs from the current one. */
  predicate Reorders(s: CatStore, u: CategoryUpdate)
    requires u.id in s
  {
    u.displayOrder.Some? && u.displayOrder.value != s[u.id].displayOrder
  }

  /**
   * The checks before any write, in the order the handler makes them: a
   * new parent whose text is not an ObjectId fails the cast of `findById`
   * (500), one that is missing is a 400.
   */
  function UpdateChecks(s: CatStore, u: CategoryUpdate): (r: Result<()>)
    ensures r.Ok? <==>
      u.name != "" && !(u.level.Some? && u.level.value > MaxChildLevel) && u.id in s
      && !(Reparents(s, u) && (ParentOf(u).None? || ParentOf(u).value !in s))
    ensures (u.name != "" && !(u.level.Some? && u.level.value > MaxChildLevel) && u.id in s
             && Reparents(s, u) && ParentOf(u).None?) ==> r == Err(500, CastMessage)
  {
    if u.name == "" then Err(400, "Category name is required")
    else if u.level.Some? && u.level.value > MaxChildLevel then Err(400, "SubCategories level cannot be added!Max level is 4")
    else if u.id !in s then Err(404, "Category not found")
    else if Reparents(s, u) && ParentOf(u).None? then Err(500, CastMessage)
    else if Reparents(s, u) && ParentOf(u).value !in s then Err(400, "New parent category not found")
    else Ok(())
  }

  /** The order asked for lies in 1..max+1, max being the largest order among the siblings it would shift (0 for none). */
  predicate OrderInRange(s: CatStore, parent: Option<Id>, id: Id, target: int)
  {
    1 <= target <= MaxOrder(CatOrders(s), OrderGroup(s, parent, id)) + 1
  }

  /** Stores whose orders agree have the same order map. */
  lemma SameOrders(s: CatStore, t: CatStore)
    requires t.Keys == s.Keys
    requires forall x :: x in s ==> t[x].displayOrder == s[x].displayOrder
    ensures CatOrders(t) == CatOrders(s)
  {
  }

  /** The store after the re-parent writes, when the request re-parents. */
  function Relevelled(s: CatStore, u: CategoryUpdate, f: Fuel): (r: CatStore)
    requires UpdateChecks(s, u).Ok?
    ensures SameOrdering(s, r)
  {
    if Reparents(s, u) then Relevel(s, u.id, ParentOf(u).value, f) else s
  }

  /** The level the final write stores: the new parent's plus one, else the level asked for (none keeps it). */
  function NewLevel(s: CatStore, u: CategoryUpdate): Option<int>
    requires UpdateChecks(s, u).Ok?
  {
    if Reparents(s, u) then Some(s[ParentOf(u).value].level + 1) else u.level
  }

  /**
   * `updateCategory`, once the category is found. The re-parent writes
   * happen before the order check, so an order out of range still leaves
   * them in place. The order change shifts the siblings under the OLD
   * parent; the final write then sets the parent the request names, or
   * none when it names none.
   */
  function UpdateCategory(s: CatStore, u: CategoryUpdate, f: Fuel): (out: Outcome<CatStore, Category>)
    ensures out.result.Err? <==>
      UpdateChecks(s, u).Err?
      || (Reorders(s, u) && !OrderInRange(s, s[u.id].parentId, u.id, u.displayOrder.value))
      || BlankParent(u)
    ensures UpdateChecks(s, u).Err? ==>
      out.state == s && out.result == Err(UpdateChecks(s, u).status, UpdateChecks(s, u).message)
    ensures UpdateChecks(s, u).Ok? && Reorders(s, u) && !OrderInRange(s, s[u.id].parentId, u.id, u.displayOrder.value) ==>
      out.state == Relevelled(s, u, f) && out.result.Err? && out.result.status == 400
    ensures (UpdateChecks(s, u).Ok? && !(Reorders(s, u) && !OrderInRange(s, s[u.id].parentId, u.id, u.displayOrder.value))
             && BlankParent(u)) ==> out.result == Err(500, CastMessage)
    ensures out.state.Keys == s.Keys
  {
    var checks := UpdateChecks(s, u);
    if checks.Err? then Outcome(s, Err(checks.status, checks.message))
    else
      var s1 := Relevelled(s, u, f);
      SameOrderingGroups(s, s1, s[u.id].parentId);
      if Reorders(s, u) then
        if !OrderInRange(s1, s[u.id].parentId, u.id, u.displayOrder.value) then
          Outcome(s1, Err(400, "Display order must be between 1 and the last order plus one"))
        else PlaceAndFinish(s1, s[u.id].parentId, u, NewLevel(s, u))
      else Finish(s1, u, NewLevel(s, u))
  }

  /**
   * An accepted update writes the name, the parent asked for (none when
   * omitted) and the new level: the new parent's plus one whenever the
   * parent text differs from the printed current parent.
   */
  lemma UpdateWritesDocument(s: CatStore, u: CategoryUpdate, f: Fuel)
    requires UpdateCategory(s, u, f).result.Ok?
    ensures UpdateChecks(s, u).Ok? && !BlankParent(u)
    ensures var out := UpdateCategory(s, u, f);
      out.state[u.id] == out.result.value
      && out.result.value.name == u.name && out.result.value.parentId == ParentOf(u)
      && out.result.value.level == NewLevel(s, u).GetOr(s[u.id].level)
      && out.result.value.isDeleted == s[u.id].isDeleted
  {
  }

  /**
   * An accepted update moves the category inside its old group when it
   * asks for a new order, and otherwise changes no order.
   */
  lemma UpdateOrders(s: CatStore, u: CategoryUpdate, f: Fuel)
    requires UpdateCategory(s, u, f).result.Ok?
    ensures UpdateChecks(s, u).Ok?
    ensures Reorders(s, u) ==>
      CatOrders(UpdateCategory(s, u, f).state)
      == Move(CatOrders(s), OrderGroup(s, s[u.id].parentId, u.id) + {u.id}, u.id, u.displayOrder.value)
    ensures !Reorders(s, u) ==> CatOrders(UpdateCategory(s, u, f).state) == CatOrders(s)
  {
    PassedOrders(s, u, f);
  }

  /**
   * Once the checks and the order range pass, the orders move as asked,
   * whether the final write then succeeds or fails on a blank parent.
   */
  lemma PassedOrders(s: CatStore, u: CategoryUpdate, f: Fuel)
    requires UpdateChecks(s, u).Ok?
    requires !(Reorders(s, u) && !OrderInRange(s, s[u.id].parentId, u.id, u.displayOrder.value))
    ensures Reorders(s, u) ==>
      CatOrders(UpdateCategory(s, u, f).state)
      == Move(CatOrders(s), OrderGroup(s, s[u.id].parentId, u.id) + {u.id}, u.id, u.displayOrder.value)
    ensures !Reorders(s, u) ==> CatOrders(UpdateCategory(s, u, f).state) == CatOrders(s)
  {
    var s1 := Relevelled(s, u, f);
    SameOrderingGroups(s, s1, s[u.id].parentId);
    if !Reorders(s, u) {
      var out := Finish(s1, u, NewLevel(s, u));
      SameOrders(s1, out.state);
    }
  }

  /**
   * Other categories keep their parent, name and deletion mark whatever
   * the outcome; their levels are those the re-parent walk left.
   */
  lemma UpdateOthers(s: CatStore, u: CategoryUpdate, f: Fuel, x: Id)
    requires x in s && x != u.id
    ensures UpdateCategory(s, u, f).state[x].parentId == s[x].parentId
    ensures UpdateCategory(s, u, f).state[x].name == s[x].name
    ensures UpdateCategory(s, u, f).state[x].isDeleted == s[x].isDeleted
    ensures UpdateChecks(s, u).Ok? ==> UpdateCategory(s, u, f).state[x].level == Relevelled(s, u, f)[x].level
  {
    if UpdateChecks(s, u).Ok? {
      var s1 := Relevelled(s, u, f);
      var out := UpdateCategory(s, u, f);
      assert out.state[x] == s1[x] || SameButOrder(out.state[x], s1[x]);
    }
  }

  /** The order change inside the old group, then the final write. */
  function PlaceAndFinish(s: CatStore, parent: Option<Id>, u: CategoryUpdate, lvl: Option<int>): (out: Outcome<CatStore, Category>)
    requires u.id in s && u.displayOrder.Some?
    ensures out.state.Keys == s.Keys
    ensures out.result.Err? <==> BlankParent(u)
    ensures out.result.Err? ==> out.result.status == 500
    ensures forall x :: x in s && x != u.id ==> SameButOrder(out.state[x], s[x])
    ensures out.result.Ok? ==>
      out.state[u.id] == out.result.value
      && out.result.value.name == u.name && out.result.value.parentId == ParentOf(u)
      && out.result.value.level == lvl.GetOr(s[u.id].level)
    ensures CatOrders(out.state) == Move(CatOrders(s), OrderGroup(s, parent, u.id) + {u.id}, u.id, u.displayOrder.value)
  {
    var moved := MoveCategory(s, OrderGroup(s, parent, u.id), u.id, u.displayOrder.value);
    var out := Finish(moved, u, lvl);
    SameOrders(moved, out.state);
    out
  }

  /** In a dense group, every position 1..N is within the range the order check allows. */
  lemma GroupRoom(o: Orders, g: set<Id>, m: Id, target: int)
    requires g <= o.Keys && m in g && Dense(o, g)
    requires target <= |g|
    ensures target <= MaxOrder(o, g - {m}) + 1
  {
    var rest := g - {m};
    if o[m] == |g| {
      assert |rest| == |g| - 1;
      assert Dense(o, rest);
      DenseMax(o, rest);
    } else {
      DenseImage(o, g);
      assert |g| in Interval(1, |g|);
      assert |g| in Image(o, g);
      var top :| top in g && o[top] == |g|;
      assert top in rest;
    }
  }

  /** The category's group under its current parent: its live siblings and itself. */
  function OwnGroup(s: CatStore, id: Id): (g: set<Id>)
    requires id in s
    ensures g <= s.Keys
  {
    RenumberGroup(s, s[id].parentId)
  }

  /**
   * Moving a live category of a dense group to a position inside 1..N is
   * accepted and leaves the group dense.
   */
  lemma UpdateMoveKeepsDense(s: CatStore, u: CategoryUpdate, f: Fuel)
    requires UpdateChecks(s, u).Ok? && Reorders(s, u)
    requires u.id in OwnGroup(s, u.id) && Dense(CatOrders(s), OwnGroup(s, u.id))
    requires 1 <= u.displayOrder.value <= |OwnGroup(s, u.id)|
    ensures UpdateCategory(s, u, f).result.Ok? <==> !BlankParent(u)
    ensures Dense(CatOrders(UpdateCategory(s, u, f).state), OwnGroup(s, u.id))
  {
    var g := OwnGroup(s, u.id);
    var o := CatOrders(s);
    GroupRoom(o, g, u.id, u.displayOrder.value);
    assert OrderGroup(s, s[u.id].parentId, u.id) + {u.id} == g;
    PassedOrders(s, u, f);
    MoveKeepsDense(o, g, u.id, u.displayOrder.value);
  }

  /**
   * Moving a live category of a dense group of N to position N + 1, which
   * the order check accepts, puts it past the end: the group is no longer
   * dense.
   */
  lemma UpdateToEndLeavesGap(s: CatStore, u: CategoryUpdate, f: Fuel)
    requires UpdateChecks(s, u).Ok? && Reorders(s, u)
    requires u.id in OwnGroup(s, u.id) && Dense(CatOrders(s), OwnGroup(s, u.id))
    requires s[u.id].displayOrder < |OwnGroup(s, u.id)| && u.displayOrder.value == |OwnGroup(s, u.id)| + 1
    ensures UpdateCategory(s, u, f).result.Ok? <==> !BlankParent(u)
    ensures CatOrders(UpdateCategory(s, u, f).state)[u.id] == |OwnGroup(s, u.id)| + 1
    ensures !Dense(CatOrders(UpdateCategory(s, u, f).state), OwnGroup(s, u.id))
  {
    var g := OwnGroup(s, u.id);
    var o := CatOrders(s);
    DenseImage(o, g);
    assert |g| in Interval(1, |g|);
    assert |g| in Image(o, g);
    var top :| top in g && o[top] == |g|;
    assert top in OrderGroup(s, s[u.id].parentId, u.id);
    PassedOrders(s, u, f);
  }

  /**
   * A re-parent of a category with children relevels the generations below
   * it, as the walk sees the forest after the flag writes, provided that
   * forest has disjoint subtrees below the category and does not lead back
   * to it.
   */
  lemma UpdateRelevels(s: CatStore, u: CategoryUpdate, f: Fuel)
    requires UpdateChecks(s, u).Ok? && Reparents(s, u) && s[u.id].hasChildren
    requires DisjointSubtrees(ReparentFlags(s, u.id, ParentOf(u).value), u.id, f)
    requires u.id !in Reach(ReparentFlags(s, u.id, ParentOf(u).value), u.id, f)
    requires UpdateCategory(s, u, f).result.Ok?
    ensures LevelsBelow(UpdateCategory(s, u, f).state, ReparentFlags(s, u.id, ParentOf(u).value),
                        u.id, s[ParentOf(u).value].level + 1, f)
  {
    var p := ParentOf(u).value;
    var sb := ReparentFlags(s, u.id, p);
    var lvl := s[p].level + 1;
    var s1 := Relevelled(s, u, f);
    RelevelledLevels(s, u, f);
    var r := UpdateCategory(s, u, f).state;
    forall x | x in Reach(sb, u.id, f)
      ensures x in r && x in s1 && r[x].level == s1[x].level
    {
      UpdateOthers(s, u, f, x);
    }
    LevelsBelowFrame(s1, r, sb, u.id, lvl, f);
  }

  /** The walk of the re-parent sets the levels below the category. */
  lemma RelevelledLevels(s: CatStore, u: CategoryUpdate, f: Fuel)
    requires UpdateChecks(s, u).Ok? && Reparents(s, u) && s[u.id].hasChildren
    requires DisjointSubtrees(ReparentFlags(s, u.id, ParentOf(u).value), u.id, f)
    ensures LevelsBelow(Relevelled(s, u, f), ReparentFlags(s, u.id, ParentOf(u).value),
                        u.id, s[ParentOf(u).value].level + 1, f)
  {
    var sb := ReparentFlags(s, u.id, ParentOf(u).value);
    UpdateChildLevelsSetsLevels(sb, sb, u.id, s[ParentOf(u).value].level + 1, f);
  }

  /**
   * `updateCategory` on the request body. The name and level checks come
   * first; then `findById(id)`: an omitted id finds nothing (404), text
   * that is not an ObjectId fails the cast (500), and an ObjectId in either
   * letter case names the category it spells.
   */
  function UpdateRequest(s: CatStore, b: UpdateBody, f: Fuel): (out: Outcome<CatStore, Category>)
    ensures b.name == "" ==> out == Outcome(s, Err(400, "Category name is required"))
    ensures b.name != "" && b.level.Some? && b.level.value > MaxChildLevel ==>
      out.state == s && out.result.Err? && out.result.status == 400
    ensures (b.name != "" && !(b.level.Some? && b.level.value > MaxChildLevel)
             && Helper.GetMongoId(b.id).None? && b.id.None?) ==> out == Outcome(s, Err(404, "Category not found"))
    ensures (b.name != "" && !(b.level.Some? && b.level.value > MaxChildLevel)
             && Helper.GetMongoId(b.id).None? && b.id.Some?) ==> out == Outcome(s, Err(500, CastMessage))
    ensures Helper.GetMongoId(b.id).Some? ==>
      out == UpdateCategory(s, CategoryUpdate(Helper.GetMongoId(b.id).value, b.name, b.level, b.parentId, b.displayOrder), f)
  {
    var q := Helper.GetMongoId(b.id);
    if b.name == "" then Outcome(s, Err(400, "Category name is required"))
    else if b.level.Some? && b.level.value > MaxChildLevel then
      Outcome(s, Err(400, "SubCategories level cannot be added!Max level is 4"))
    else if q.None? then
      if b.id.None? then Outcome(s, Err(404, "Category not found")) else Outcome(s, Err(500, CastMessage))
    else UpdateCategory(s, CategoryUpdate(q.value, b.name, b.level, b.parentId, b.displayOrder), f)
  }

  /**
   * For parent text in lower case the text test is the id test: the
   * category is re-parented exactly when the text names a parent other
   * than its current one.
   */
  lemma ReparentsOnLowercase(s: CatStore, u: CategoryUpdate)
    requires u.id in s && u.parentId.Some? && Helper.IsObjectIdString(u.parentId.value)
    requires forall i :: 0 <= i < |u.parentId.value| ==> !('A' <= u.parentId.value[i] <= 'F')
    requires s[u.id].parentId.Some? ==> s[u.id].parentId.value < Helper.Pow16(Helper.ObjectIdDigits)
    ensures Reparents(s, u) <==> s[u.id].parentId != ParentOf(u)
  {
    var t := u.parentId.value;
    Helper.FormatParseHex(t);
    if s[u.id].parentId.Some? {
      Helper.ParseHexBound(t);
      Helper.PrintedInjective(s[u.id].parentId.value, Helper.ParseHex(t));
    }
  }

  /** Parent text with an upper-case hex digit prints as no id, so it always takes the re-parent path. */
  lemma UppercaseParentReparents(s: CatStore, u: CategoryUpdate, k: nat)
    requires u.id in s && u.parentId.Some?
    requires k < |u.parentId.value| && 'A' <= u.parentId.value[k] <= 'F'
    ensures Reparents(s, u)
  {
    if s[u.id].parentId.Some? && k < Helper.ObjectIdDigits {
      Helper.FormatHexLowercase(s[u.id].parentId.value, Helper.ObjectIdDigits, k);
    }
  }

  /**
   * The current parent sent with an upper-case hex digit: an accepted
   * update keeps the parent but takes the re-parent path, so the level
   * stored is the parent's plus one, whatever level the request sent.
   */
  lemma UppercaseSameParentRelevels(s: CatStore, u: CategoryUpdate, f: Fuel, k: nat)
    requires u.id in s && u.parentId.Some? && Helper.IsObjectIdString(u.parentId.value)
    requires k < |u.parentId.value| && 'A' <= u.parentId.value[k] <= 'F'
    requires s[u.id].parentId == Some(Helper.ParseHex(u.parentId.value))
    requires UpdateCategory(s, u, f).result.Ok?
    ensures Reparents(s, u)
    ensures UpdateCategory(s, u, f).result.value.parentId == s[u.id].parentId
    ensures UpdateCategory(s, u, f).result.value.level == s[s[u.id].parentId.value].level + 1
  {
    UppercaseParentReparents(s, u, k);
    UpdateWritesDocument(s, u, f);
  }

  // ---------------------------------------------------------------------
  // deleteCategory
  // ---------------------------------------------------------------------

  /** The two collections `deleteCategory` writes. */
  datatype Shop = Shop(cats: CatStore, products: Products.Store)

  /** The descendant move starts at depth 0 and stops above depth 10: eleven generations. */
  const DeleteDepth: Fuel := Gens(11)

  /** Two stores with the same parents, levels, names and deletion marks. */
  predicate SameLinks(s: CatStore, t: CatStore)
  {
    t.Keys == s.Keys
    && forall x :: x in s ==>
         t[x].parentId == s[x].parentId && t[x].level == s[x].level
         && t[x].name == s[x].name && t[x].isDeleted == s[x].isDeleted
  }

  lemma SameLinksSiblings(s: CatStore, t: CatStore, parent: Option<Id>)
    requires SameLinks(s, t)
    ensures Siblings(t, parent) == Siblings(s, parent)
  {
  }

  /** Renumber every category under `p`, soft-deleted ones included, 1..N in their listed order. */
  function RenumberChildren(s: CatStore, p: Id): (r: CatStore)
    ensures r.Keys == s.Keys
    ensures forall x :: x in s ==> SameButOrder(r[x], s[x])
    ensures CatOrders(r) == Renumber(CatOrders(s), Siblings(s, Some(p)))
  {
    WithCatOrders(s, Renumber(CatOrders(s), Siblings(s, Some(p))))
  }

  /** Changing orders only changes no sibling group. */
  lemma OrdersKeepSiblings(s: CatStore, r: CatStore, q: Option<Id>)
    requires r.Keys == s.Keys && forall x :: x in s ==> SameButOrder(r[x], s[x])
    ensures Siblings(r, q) == Siblings(s, q)
  {
  }

  /** After the renumbering the children of `p` hold each order 1..N once. */
  lemma RenumberChildrenDense(s: CatStore, p: Id)
    ensures Siblings(RenumberChildren(s, p), Some(p)) == Siblings(s, Some(p))
    ensures Dense(CatOrders(RenumberChildren(s, p)), Siblings(RenumberChildren(s, p), Some(p)))
  {
    OrdersKeepSiblings(s, RenumberChildren(s, p), Some(p));
    RenumberDense(CatOrders(s), Siblings(s, Some(p)));
  }

  /** Density of a group only depends on the orders of its members. */
  lemma DenseAgree(o: Orders, o': Orders, g: set<Id>)
    requires g <= o.Keys && g <= o'.Keys
    requires forall x :: x in g ==> o'[x] == o[x]
    requires Dense(o, g)
    ensures Dense(o', g)
  {
  }

  /** Renumbering the children of one parent leaves the orders of another parent's children alone. */
  lemma RenumberKeepsOtherGroup(s: CatStore, p: Id, q: Option<Id>)
    requires q != Some(p) && Dense(CatOrders(s), Siblings(s, q))
    ensures Siblings(RenumberChildren(s, p), q) == Siblings(s, q)
    ensures Dense(CatOrders(RenumberChildren(s, p)), Siblings(RenumberChildren(s, p), q))
  {
    var r := RenumberChildren(s, p);
    OrdersKeepSiblings(s, r, q);
    DenseAgree(CatOrders(s), CatOrders(r), Siblings(s, q));
  }

  /**
   * The writes after the moves: "deletedCategories" gains `hasChildren`
   * when anything sits under it (regular delete only), then the old
   * parent's children and the children of "deletedCategories" are
   * renumbered.
   */
  function DeleteTail(s: CatStore, parent: Option<Id>, soft: bool): (r: CatStore)
    ensures r.Keys == s.Keys
  {
    var s4 := MarkTarget(s, soft);
    var s5 := if parent.Some? then RenumberChildren(s4, parent.value) else s4;
    RenumberChildren(s5, DeleteTarget)
  }

  /** The flag write on "deletedCategories", skipped by a soft delete or when nothing sits under it. */
  function MarkTarget(s: CatStore, soft: bool): (r: CatStore)
    ensures SameLinks(s, r)
    ensures CatOrders(r) == CatOrders(s)
    ensures DeleteTarget in s && !soft && Siblings(s, Some(DeleteTarget)) != {} ==> r[DeleteTarget].hasChildren
  {
    var r := if !soft && Siblings(s, Some(DeleteTarget)) != {} then MarkParent(s, Some(DeleteTarget)) else s;
    MarkParentKeeps(s, Some(DeleteTarget), None, "", 0);
    r
  }

  /** The tail changes no parent, level, name or deletion mark. */
  lemma DeleteTailLinks(s: CatStore, parent: Option<Id>, soft: bool)
    ensures SameLinks(s, DeleteTail(s, parent, soft))
  {
    var s4 := MarkTarget(s, soft);
    var s5 := if parent.Some? then RenumberChildren(s4, parent.value) else s4;
    var r := RenumberChildren(s5, DeleteTarget);
    assert SameLinks(s4, s5);
    assert SameLinks(s5, r);
  }

  /** After the tail both renumbered groups hold the orders 1..N. */
  lemma DeleteTailDense(s: CatStore, parent: Option<Id>, soft: bool)
    ensures var r := DeleteTail(s, parent, soft);
      Dense(CatOrders(r), Siblings(r, Some(DeleteTarget)))
      && (parent.Some? && parent.value != DeleteTarget ==> Dense(CatOrders(r), Siblings(r, parent)))
  {
    TailRenumbersDense(MarkTarget(s, soft), parent);
  }

  /** The two renumberings at the end of a delete leave both groups dense. */
  lemma TailRenumbersDense(s4: CatStore, parent: Option<Id>)
    ensures var s5 := if parent.Some? then RenumberChildren(s4, parent.value) else s4;
      var r := RenumberChildren(s5, DeleteTarget);
      Dense(CatOrders(r), Siblings(r, Some(DeleteTarget)))
      && (parent.Some? && parent.value != DeleteTarget ==> Dense(CatOrders(r), Siblings(r, parent)))
  {
    var s5 := if parent.Some? then RenumberChildren(s4, parent.value) else s4;
    RenumberChildrenDense(s5, DeleteTarget);
    if parent.Some? && parent.value != DeleteTarget {
      RenumberChildrenDense(s4, parent.value);
      RenumberKeepsOtherGroup(s5, DeleteTarget, parent);
    }
  }

  /**
   * The moves: the subtree below the category (when flagged), the old
   * parent's flag, then the category itself, soft-deleted below the
   * protected category and re-parented under "deletedCategories" elsewhere.
   */
  function DeleteHead(s: CatStore, id: Id): (r: CatStore)
    requires id in s
    ensures r.Keys == s.Keys
  {
    PlaceDeleted(ClearOldParent(MoveBelow(s, id), s[id].parentId), id, SoftDelete(s, id))
  }

  /** The descendant move, done only when the category is flagged as having children. */
  function MoveBelow(s: CatStore, id: Id): (r: CatStore)
    requires id in s
    ensures r.Keys == s.Keys
  {
    if s[id].hasChildren then MoveAll(s, id, DeleteDepth) else s
  }

  /** The old parent loses `hasChildren` when at most one child is left under it. */
  function ClearOldParent(s: CatStore, parent: Option<Id>): (r: CatStore)
    ensures r.Keys == s.Keys
    ensures forall x :: x in s ==> SameButFlag(r[x], s[x])
  {
    if parent.Some? then ClearIfLast(s, parent.value) else s
  }

  /** The category itself: marked deleted in a soft delete, else moved under "deletedCategories". */
  function PlaceDeleted(s: CatStore, id: Id, soft: bool): (r: CatStore)
    requires id in s
    ensures r.Keys == s.Keys
    ensures forall x :: x in s && x != id ==> r[x] == s[x]
    ensures soft ==> r[id] == s[id].(isDeleted := true)
    ensures !soft ==> r[id] == MovedOf(s[id])
  {
    if soft then s[id := s[id].(isDeleted := true)] else s[id := MovedOf(s[id])]
  }

  /**
   * The products of the deleted category: soft-deleted below the protected
   * category, else moved to "deletedCategories" without a sub-category.
   * Products that only name it as sub-category are not touched.
   */
  function DeleteProducts(ps: Products.Store, id: Id, soft: bool): (r: Products.Store)
    ensures r.Keys == ps.Keys
    ensures forall x :: x in ps && ps[x].category != id ==> r[x] == ps[x]
    ensures forall x :: x in ps && ps[x].category == id && soft ==> r[x] == ps[x].(isDeleted := true)
    ensures forall x :: x in ps && ps[x].category == id && !soft ==>
      r[x] == ps[x].(category := DeleteTarget, subCategory := None)
  {
    map x | x in ps ::
      if ps[x].category != id then ps[x]
      else if soft then ps[x].(isDeleted := true)
      else ps[x].(category := DeleteTarget, subCategory := None)
  }

  /** A delete below the protected category is a soft delete. */
  predicate SoftDelete(s: CatStore, id: Id)
    requires id in s
  {
    s[id].parentId == Some(ProtectedId)
  }

  /** The writes of a delete that passed its checks. */
  function DeleteApply(shop: Shop, id: Id): (r: Shop)
    requires id in shop.cats
    ensures r.cats.Keys == shop.cats.Keys && r.products.Keys == shop.products.Keys
  {
    Shop(DeleteCats(shop.cats, id), DeleteProducts(shop.products, id, SoftDelete(shop.cats, id)))
  }

  const ProtectedMessage := "Cannot delete the deletedCategories parent category. This is a protected system category."
  const TargetMissingMessage := "deletedCategories parent category not found. Please create it first."

  /**
   * `deleteCategory(id)`. A missing category is 404, the protected one
   * 400, a missing "deletedCategories" 500; each leaves everything as it
   * was. Otherwise the delete always succeeds.
   */
  function DeleteCategory(shop: Shop, id: Id): (out: Outcome<Shop, ()>)
    ensures out.result.Err? <==> id !in shop.cats || id == ProtectedId || DeleteTarget !in shop.cats
    ensures out.result.Err? ==> out.state == shop
    ensures id !in shop.cats ==> out.result.status == 404
    ensures id in shop.cats && id == ProtectedId ==> out.result.status == 400
    ensures id in shop.cats && id != ProtectedId && DeleteTarget !in shop.cats ==> out.result.status == 500
    ensures out.state.cats.Keys == shop.cats.Keys && out.state.products.Keys == shop.products.Keys
  {
    if id !in shop.cats then Outcome(shop, Err(404, "Category not found"))
    else if id == ProtectedId then
      Outcome(shop, Err(400, ProtectedMessage))
    else if DeleteTarget !in shop.cats then
      Outcome(shop, Err(500, TargetMissingMessage))
    else Outcome(DeleteApply(shop, id), Ok(()))
  }

  /** The text the guard of `deleteCategory` compares with: the protected id as it prints, "68a62a1208e4173abbf49e0e". */
  const ProtectedText := Helper.IdString(ProtectedId)

  /**
   * `deleteCategory` on the request text. Text that is not an ObjectId
   * fails the cast (500); a missing category is 404; the guard compares the
   * text itself with the protected id's lower-case spelling (400); a
   * missing "deletedCategories" is 500; otherwise the category the text
   * names is deleted.
   */
  function DeleteRequest(shop: Shop, idText: string): (out: Outcome<Shop, ()>)
    ensures var q := Helper.GetMongoId(Some(idText));
      out.result.Err? <==> q.None? || q.value !in shop.cats || idText == ProtectedText || DeleteTarget !in shop.cats
    ensures out.result.Err? ==> out.state == shop
    ensures Helper.GetMongoId(Some(idText)).None? ==> out.result == Err(500, CastMessage)
    ensures var q := Helper.GetMongoId(Some(idText));
      q.Some? && q.value !in shop.cats ==> out.result.status == 404
    ensures var q := Helper.GetMongoId(Some(idText));
      q.Some? && q.value in shop.cats && idText == ProtectedText ==> out.result.status == 400
    ensures out.result.Ok? ==> out.state == DeleteApply(shop, Helper.ParseHex(idText))
  {
    var q := Helper.GetMongoId(Some(idText));
    if q.None? then Outcome(shop, Err(500, CastMessage))
    else if q.value !in shop.cats then Outcome(shop, Err(404, "Category not found"))
    else if idText == ProtectedText then Outcome(shop, Err(400, ProtectedMessage))
    else if DeleteTarget !in shop.cats then Outcome(shop, Err(500, TargetMissingMessage))
    else Outcome(DeleteApply(shop, Helper.ParseHex(idText)), Ok(()))
  }

  /** Only the protected id prints as the guard's text. */
  lemma ProtectedSpelling(id: Id)
    requires id < Helper.Pow16(Helper.ObjectIdDigits)
    ensures Helper.IdString(id) == ProtectedText <==> id == ProtectedId
  {
    Helper.ObjectIdRange();
    Helper.PrintedInjective(id, ProtectedId);
  }

  /**
   * For an ObjectId sent as it prints (lower case), the request is the
   * delete `DeleteCategory` describes.
   */
  lemma DeleteRequestOfPrinted(shop: Shop, id: Id)
    requires id < Helper.Pow16(Helper.ObjectIdDigits)
    ensures DeleteRequest(shop, Helper.IdString(id)) == DeleteCategory(shop, id)
  {
    Helper.MongoIdRoundTrip(id);
    ProtectedSpelling(id);
  }

  /** A request spelling the id in lower case is the delete `DeleteCategory` describes. */
  lemma DeleteLowercaseText(shop: Shop, idText: string)
    requires Helper.IsObjectIdString(idText)
    requires forall i :: 0 <= i < |idText| ==> !('A' <= idText[i] <= 'F')
    ensures DeleteRequest(shop, idText) == DeleteCategory(shop, Helper.ParseHex(idText))
  {
    var id := Helper.ParseHex(idText);
    assert Helper.IdString(id) == idText by {
      Helper.FormatParseHex(idText);
    }
    assert DeleteRequest(shop, Helper.IdString(id)) == DeleteCategory(shop, id) by {
      Helper.ParseHexBound(idText);
      DeleteRequestOfPrinted(shop, id);
    }
  }

  /**
   * The protected category sent with an upper-case hex digit passes the
   * guard and is deleted like any other category.
   */
  lemma UppercaseProtectedIsDeleted(shop: Shop, idText: string, k: nat)
    requires Helper.IsObjectIdString(idText) && k < |idText| && 'A' <= idText[k] <= 'F'
    requires Helper.ParseHex(idText) == ProtectedId
    requires ProtectedId in shop.cats && DeleteTarget in shop.cats
    ensures DeleteRequest(shop, idText) == Outcome(DeleteApply(shop, ProtectedId), Ok(()))
  {
    Helper.FormatHexLowercase(ProtectedId, Helper.ObjectIdDigits, k);
    assert idText != ProtectedText by {
      assert idText[k] != ProtectedText[k];
    }
  }

  /** The subtree below the category is a forest the move can walk: disjoint, clear of the target and of the category itself. */
  predicate ForestBelow(s: CatStore, id: Id)
  {
    id != DeleteTarget && DisjointSubtrees(s, id, DeleteDepth)
    && DeleteTarget !in Reach(s, id, DeleteDepth) && id !in Reach(s, id, DeleteDepth)
  }

  /** The nodes of `g` keep their parents and levels from `s` to `t`. */
  lemma AllMovedKept(s: CatStore, t: CatStore, g: set<Id>)
    requires AllMoved(s, g) && t.Keys == s.Keys
    requires forall x :: x in g ==> t[x].parentId == s[x].parentId && t[x].level == s[x].level
    ensures AllMoved(t, g)
  {
  }

  /** The move step of the head: everything the walk reaches is moved, and nothing else changes. */
  lemma HeadMove(s: CatStore, id: Id) returns (s1: CatStore)
    requires id in s && ForestBelow(s, id)
    ensures s1 == MoveBelow(s, id)
    ensures s[id].hasChildren ==> AllMoved(s1, Reach(s, id, DeleteDepth))
    ensures forall x :: x in s && x !in Reach(s, id, DeleteDepth) ==> s1[x] == s[x]
  {
    s1 := MoveBelow(s, id);
    if s[id].hasChildren {
      MoveAllMoves(s, s, id, DeleteDepth);
      forall x | x in s && x !in Reach(s, id, DeleteDepth)
        ensures s1[x] == s[x]
      {
        MoveAllFrame(s, s, id, DeleteDepth, x);
      }
    }
  }

  /** A delete that passes its checks writes exactly what `DeleteApply` computes. */
  lemma DeleteOkState(shop: Shop, id: Id)
    requires id in shop.cats && id != ProtectedId && DeleteTarget in shop.cats
    ensures DeleteCategory(shop, id) == Outcome(DeleteApply(shop, id), Ok(()))
  {
  }

  /** The category writes of a delete, from the store alone. */
  function DeleteCats(s: CatStore, id: Id): (r: CatStore)
    requires id in s
    ensures r.Keys == s.Keys
  {
    DeleteTail(DeleteHead(s, id), s[id].parentId, SoftDelete(s, id))
  }

  /** The head moves everything the walk reaches. */
  lemma HeadMovesSubtree(s: CatStore, id: Id)
    requires id in s && ForestBelow(s, id) && s[id].hasChildren
    ensures AllMoved(DeleteHead(s, id), Reach(s, id, DeleteDepth))
  {
    var g := Reach(s, id, DeleteDepth);
    var s1 := HeadMove(s, id);
    ClearKeepsMoved(s1, s[id].parentId, g);
    PlaceKeepsMoved(ClearOldParent(s1, s[id].parentId), id, SoftDelete(s, id), g);
  }

  lemma ClearKeepsMoved(s: CatStore, parent: Option<Id>, g: set<Id>)
    requires AllMoved(s, g)
    ensures AllMoved(ClearOldParent(s, parent), g)
  {
    AllMovedKept(s, ClearOldParent(s, parent), g);
  }

  lemma PlaceKeepsMoved(s: CatStore, id: Id, soft: bool, g: set<Id>)
    requires id in s && id !in g && AllMoved(s, g)
    ensures AllMoved(PlaceDeleted(s, id, soft), g)
  {
    AllMovedKept(s, PlaceDeleted(s, id, soft), g);
  }

  /** The head marks the category deleted in place, or moves it. */
  lemma HeadPlacesCategory(s: CatStore, id: Id)
    requires id in s && ForestBelow(s, id)
    ensures SoftDelete(s, id) ==> DeleteHead(s, id)[id].isDeleted && DeleteHead(s, id)[id].parentId == s[id].parentId
    ensures !SoftDelete(s, id) ==> IsMoved(DeleteHead(s, id)[id])
  {
    var s1 := HeadMove(s, id);
    assert s1[id] == s[id];
    var s2 := ClearOldParent(s1, s[id].parentId);
    assert SameButFlag(s2[id], s1[id]);
  }

  /** The category writes move the walked subtree, and the category itself unless the delete is soft. */
  lemma DeleteCatsMoves(s: CatStore, id: Id)
    requires id in s && ForestBelow(s, id)
    ensures s[id].hasChildren ==> AllMoved(DeleteCats(s, id), Reach(s, id, DeleteDepth))
    ensures !SoftDelete(s, id) ==> IsMoved(DeleteCats(s, id)[id])
    ensures SoftDelete(s, id) ==> DeleteCats(s, id)[id].isDeleted && DeleteCats(s, id)[id].parentId == Some(ProtectedId)
  {
    var s3 := DeleteHead(s, id);
    DeleteTailLinks(s3, s[id].parentId, SoftDelete(s, id));
    HeadPlacesCategory(s, id);
    if s[id].hasChildren {
      HeadMovesSubtree(s, id);
      AllMovedKept(s3, DeleteCats(s, id), Reach(s, id, DeleteDepth));
    }
  }

  /** The category writes leave what the walk does not reach, other than the category, linked as before. */
  lemma DeleteCatsFrame(s: CatStore, id: Id, x: Id)
    requires id in s && ForestBelow(s, id)
    requires x in s && x != id && x !in Reach(s, id, DeleteDepth)
    ensures var r := DeleteCats(s, id);
      r[x].parentId == s[x].parentId && r[x].level == s[x].level
      && r[x].name == s[x].name && r[x].isDeleted == s[x].isDeleted
  {
    var s1 := HeadMove(s, id);
    var s2 := ClearOldParent(s1, s[id].parentId);
    var s3 := PlaceDeleted(s2, id, SoftDelete(s, id));
    DeleteTailLinks(s3, s[id].parentId, SoftDelete(s, id));
    assert s1[x] == s[x];
    assert SameButFlag(s2[x], s1[x]);
    assert s3[x] == s2[x];
  }

  /**
   * In a forest, a delete re-parents every category the walk reaches under
   * "deletedCategories" at level 1, and the category itself too unless the
   * delete is soft; a soft delete marks the category deleted and leaves it
   * under the protected category.
   */
  lemma DeleteMovesSubtree(shop: Shop, id: Id)
    requires id in shop.cats && id != ProtectedId && DeleteTarget in shop.cats
    requires ForestBelow(shop.cats, id)
    ensures var r := DeleteCategory(shop, id).state.cats;
      shop.cats[id].hasChildren ==> AllMoved(r, Reach(shop.cats, id, DeleteDepth))
    ensures var r := DeleteCategory(shop, id).state.cats;
      !SoftDelete(shop.cats, id) ==> IsMoved(r[id])
    ensures var r := DeleteCategory(shop, id).state.cats;
      SoftDelete(shop.cats, id) ==> r[id].isDeleted && r[id].parentId == Some(ProtectedId)
  {
    DeleteOkState(shop, id);
    DeleteCatsMoves(shop.cats, id);
  }

  /** In a forest, categories the delete does not reach keep their parent, level, name and mark. */
  lemma DeleteFrame(shop: Shop, id: Id, x: Id)
    requires id in shop.cats && id != ProtectedId && DeleteTarget in shop.cats
    requires ForestBelow(shop.cats, id)
    requires x in shop.cats && x != id && x !in Reach(shop.cats, id, DeleteDepth)
    ensures var r := DeleteCategory(shop, id).state.cats;
      r[x].parentId == shop.cats[x].parentId && r[x].level == shop.cats[x].level
      && r[x].name == shop.cats[x].name && r[x].isDeleted == shop.cats[x].isDeleted
  {
    DeleteOkState(shop, id);
    DeleteCatsFrame(shop.cats, id, x);
  }

  /**
   * After a delete the children of "deletedCategories" hold the orders
   * 1..N, and so do the children of the old parent when that is another
   * category.
   */
  lemma DeleteRenumbers(shop: Shop, id: Id)
    requires id in shop.cats && id != ProtectedId && DeleteTarget in shop.cats
    ensures var r := DeleteCategory(shop, id).state.cats;
      Dense(CatOrders(r), Siblings(r, Some(DeleteTarget)))
    ensures var r := DeleteCategory(shop, id).state.cats;
      shop.cats[id].parentId.Some? && shop.cats[id].parentId != Some(DeleteTarget) ==>
        Dense(CatOrders(r), Siblings(r, shop.cats[id].parentId))
  {
    DeleteOkState(shop, id);
    DeleteTailDense(DeleteHead(shop.cats, id), shop.cats[id].parentId, SoftDelete(shop.cats, id));
  }

  /** A regular delete moves every product of the category away; a soft delete marks them deleted. */
  lemma DeleteProductsEmpty(ps: Products.Store, id: Id, soft: bool)
    requires id != DeleteTarget
    ensures !soft ==> forall x :: x in DeleteProducts(ps, id, soft) ==> DeleteProducts(ps, id, soft)[x].category != id
    ensures soft ==> Products.ScopeMembers(DeleteProducts(ps, id, soft), id, None) == {}
  {
    var r := DeleteProducts(ps, id, soft);
    if soft {
      forall x | x in r
        ensures !Products.InScope(r[x], id, None) || r[x].isDeleted
      {
      }
    }
  }

  /**
   * After a regular delete no product names the category any more; after a
   * soft delete none of its products is ranked in its scope.
   */
  lemma DeleteEmptiesCategory(shop: Shop, id: Id)
    requires id in shop.cats && id != ProtectedId && DeleteTarget in shop.cats && id != DeleteTarget
    ensures var ps := DeleteCategory(shop, id).state.products;
      !SoftDelete(shop.cats, id) ==> forall x :: x in ps ==> ps[x].category != id
    ensures var ps := DeleteCategory(shop, id).state.products;
      SoftDelete(shop.cats, id) ==> Products.ScopeMembers(ps, id, None) == {}
  {
    DeleteOkState(shop, id);
    DeleteProductsEmpty(shop.products, id, SoftDelete(shop.cats, id));
  }

  /**
   * Deleting "deletedCategories" itself (from anywhere but the protected
   * category) makes it its own parent.
   */
  lemma DeleteTargetBecomesOwnParent(shop: Shop)
    requires DeleteTarget in shop.cats && !SoftDelete(shop.cats, DeleteTarget)
    ensures DeleteCategory(shop, DeleteTarget).result.Ok?
    ensures DeleteCategory(shop, DeleteTarget).state.cats[DeleteTarget].parentId == Some(DeleteTarget)
  {
  }
}
