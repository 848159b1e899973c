/**
 * The two recursive walks over the category forest in
 * controllers/categoryController.js: `updateChildLevels`, which gives every
 * descendant its parent's level plus one, and the descendant move of
 * `deleteCategory`, which re-parents a whole subtree under the
 * "deletedCategories" category.
 *
 * Both walks query the children of a node (`find({ parentId })`, deleted
 * categories included), handle them one after another and descend only into
 * children flagged `hasChildren`. The generations a walk can reach from a
 * node are described by `Reach`; `f` counts the generations it may still
 * descend.
 */
module CategoryWalks {
  import opened Common
  import opened Ranking
  import opened Categories

  /**
   * The generations a walk may still descend: none left, or one more and
   * then `next`.
   */
  datatype Fuel = Spent | More(next: Fuel)

  /** `n` generations. */
  function Gens(n: nat): (f: Fuel)
    ensures n == 0 <==> f == Spent
  {
    if n == 0 then Spent else More(Gens(n - 1))
  }

  /** The children of `q`, deleted or not. */
  function Children(s: CatStore, q: Id): (g: set<Id>)
    ensures g <= s.Keys
  {
    set x | x in s && s[x].parentId == Some(q)
  }

  /**
   * The order a walk handles the children in. The query has no sort, so the
   * database returns them in its natural order; the model lists them by id,
   * and nothing proved below depends on the choice.
   */
  function Listing(s: CatStore, q: Id): (cs: seq<Id>)
    ensures forall i :: 0 <= i < |cs| ==> cs[i] in Children(s, q)
    ensures forall c :: c in Children(s, q) ==> c in cs
  {
    ById(Children(s, q))
  }

  /** A set of ids in ascending order. */
  function ById(g: set<Id>): (cs: seq<Id>)
    ensures |cs| == |g|
    ensures forall i :: 0 <= i < |cs| ==> cs[i] in g
    ensures forall x :: x in g ==> x in cs
    decreases |g|
  {
    if g == {} then []
    else
      var m := First(map x | x in g :: 0, g);
      [m] + ById(g - {m})
  }

  /** A child and, when it is flagged `hasChildren`, everything a walk reaches below it. */
  function Sub(s: CatStore, c: Id, f: Fuel): (g: set<Id>)
    requires c in s
    ensures c in g && g <= s.Keys
    decreases f, 1
  {
    {c} + (if s[c].hasChildren then Reach(s, c, f) else {})
  }

  /** The nodes a walk started at `q` handles within `f` generations. */
  function Reach(s: CatStore, q: Id, f: Fuel): (g: set<Id>)
    ensures g <= s.Keys
    decreases f, 0
  {
    if f == Spent then {} else Subs(s, Listing(s, q), f.next)
  }

  /** The subtrees of a list of children, together. */
  function Subs(s: CatStore, cs: seq<Id>, f: Fuel): (g: set<Id>)
    requires forall i :: 0 <= i < |cs| ==> cs[i] in s
    ensures g <= s.Keys
    decreases f, 2, |cs|
  {
    if cs == [] then {} else Sub(s, cs[0], f) + Subs(s, cs[1..], f)
  }

  lemma ReachUnfold(s: CatStore, q: Id, f: Fuel)
    requires f.More?
    ensures Reach(s, q, f) == Subs(s, Listing(s, q), f.next)
  {
  }

  lemma SubsUnfold(s: CatStore, cs: seq<Id>, f: Fuel)
    requires cs != [] && forall i :: 0 <= i < |cs| ==> cs[i] in s
    ensures Subs(s, cs, f) == Sub(s, cs[0], f) + Subs(s, cs[1..], f)
  {
  }

  lemma {:induction false} SubsHasSub(s: CatStore, cs: seq<Id>, f: Fuel, i: nat)
    requires forall j :: 0 <= j < |cs| ==> cs[j] in s
    requires i < |cs|
    ensures Sub(s, cs[i], f) <= Subs(s, cs, f)
    decreases |cs|
  {
    if i > 0 {
      SubsHasSub(s, cs[1..], f, i - 1);
    }
  }

  /** A child's subtree lies in the reach of its parent. */
  lemma SubInReach(s: CatStore, q: Id, c: Id, f: Fuel)
    requires f.More? && c in Children(s, q)
    ensures Sub(s, c, f.next) <= Reach(s, q, f)
  {
    var cs := Listing(s, q);
    var i := ListingIndex(s, q, c);
    var u := Subs(s, cs, f.next);
    assert Sub(s, c, f.next) <= u by {
      SubsHasSub(s, cs, f.next, i);
    }
    assert Reach(s, q, f) == u;
  }

  lemma ListingIndex(s: CatStore, q: Id, c: Id) returns (i: nat)
    requires c in Children(s, q)
    ensures i < |Listing(s, q)| && Listing(s, q)[i] == c
  {
    var cs := Listing(s, q);
    assert c in cs;
    i :| 0 <= i < |cs| && cs[i] == c;
  }

  /**
   * The walks below `q` never meet a node twice: the subtrees of two
   * children are disjoint, and no flagged child lies below itself. This
   * holds in a forest; a cycle of `parentId` links breaks it.
   */
  predicate DisjointSubtrees(s: CatStore, q: Id, f: Fuel)
    decreases f, 0
  {
    f == Spent || DisjointList(s, Listing(s, q), f.next)
  }

  /** The condition for a list of children handled one after another. */
  predicate DisjointList(s: CatStore, cs: seq<Id>, f: Fuel)
    requires forall i :: 0 <= i < |cs| ==> cs[i] in s
    decreases f, 1, |cs|
  {
    cs == [] ||
    (Sub(s, cs[0], f) !! Subs(s, cs[1..], f)
     && (s[cs[0]].hasChildren ==> cs[0] !in Reach(s, cs[0], f) && DisjointSubtrees(s, cs[0], f))
     && DisjointList(s, cs[1..], f))
  }

  /** Two stores with the same links, flags and orders: the walks see the same forest. */
  predicate SameShape(s: CatStore, t: CatStore)
  {
    t.Keys == s.Keys
    && forall x :: x in s ==> (t[x].parentId == s[x].parentId && t[x].hasChildren == s[x].hasChildren
         && t[x].displayOrder == s[x].displayOrder)
  }

  lemma ShapeKeepsListing(s: CatStore, t: CatStore, q: Id)
    requires SameShape(s, t)
    ensures Children(t, q) == Children(s, q) && Listing(t, q) == Listing(s, q)
  {
    assert Children(t, q) == Children(s, q);
    assert CatOrders(t) == CatOrders(s);
  }

  lemma {:induction false} ShapeKeepsReach(s: CatStore, t: CatStore, q: Id, f: Fuel)
    requires SameShape(s, t)
    ensures Children(t, q) == Children(s, q) && Listing(t, q) == Listing(s, q)
    ensures Reach(t, q, f) == Reach(s, q, f)
    decreases f, 0
  {
    ShapeKeepsListing(s, t, q);
    if f.More? {
      ShapeKeepsSubs(s, t, Listing(s, q), f.next);
    }
  }

  lemma {:induction false} ShapeKeepsSub(s: CatStore, t: CatStore, c: Id, f: Fuel)
    requires SameShape(s, t) && c in s
    ensures Sub(t, c, f) == Sub(s, c, f)
    decreases f, 1
  {
    ShapeKeepsReach(s, t, c, f);
  }

  lemma {:induction false} ShapeKeepsSubs(s: CatStore, t: CatStore, cs: seq<Id>, f: Fuel)
    requires SameShape(s, t) && forall i :: 0 <= i < |cs| ==> cs[i] in s
    ensures Subs(t, cs, f) == Subs(s, cs, f)
    decreases f, 2, |cs|
  {
    if cs != [] {
      ShapeKeepsSub(s, t, cs[0], f);
      ShapeKeepsSubs(s, t, cs[1..], f);
    }
  }

  // ---------------------------------------------------------------------
  // updateChildLevels
  // ---------------------------------------------------------------------

  predicate SameButLevel(a: Category, b: Category)
  {
    a.(level := b.level) == b
  }

  /**
   * `updateChildLevels(q, lvl)`: every child of `q` gets level `lvl + 1`,
   * and the walk continues below the flagged children. The source recurses
   * without bound; `f` bounds the generations.
   */
  function UpdateChildLevels(s: CatStore, q: Id, lvl: int, f: Fuel): (r: CatStore)
    ensures r.Keys == s.Keys
    ensures forall x :: x in s ==> SameButLevel(r[x], s[x])
    decreases f, 0, 0
  {
    if f == Spent then s else LevelChildren(s, Listing(s, q), lvl + 1, f.next)
  }

  /** The loop over the children: set the level, then descend if flagged. */
  function LevelChildren(s: CatStore, cs: seq<Id>, lvl: int, f: Fuel): (r: CatStore)
    requires forall i :: 0 <= i < |cs| ==> cs[i] in s
    ensures r.Keys == s.Keys
    ensures forall x :: x in s ==> SameButLevel(r[x], s[x])
    decreases f, 1, |cs|
  {
    if cs == [] then s
    else
      var c := cs[0];
      var s1 := s[c := s[c].(level := lvl)];
      var s2 := if s[c].hasChildren then UpdateChildLevels(s1, c, lvl, f) else s1;
      LevelChildren(s2, cs[1..], lvl, f)
  }

  lemma LevelsKeepShape(s: CatStore, r: CatStore)
    requires r.Keys == s.Keys && forall x :: x in s ==> SameButLevel(r[x], s[x])
    ensures SameShape(s, r) && SameShape(r, s)
  {
  }

  /** Nothing outside the reach of the walk changes. */
  lemma {:induction false} UpdateChildLevelsFrame(s: CatStore, q: Id, lvl: int, f: Fuel, x: Id)
    requires x in s && x !in Reach(s, q, f)
    ensures UpdateChildLevels(s, q, lvl, f)[x] == s[x]
    decreases f, 0, 0
  {
    if f.More? {
      LevelChildrenFrame(s, Listing(s, q), lvl + 1, f.next, x);
    }
  }

  lemma {:induction false} LevelChildrenFrame(s: CatStore, cs: seq<Id>, lvl: int, f: Fuel, x: Id)
    requires forall i :: 0 <= i < |cs| ==> cs[i] in s
    requires x in s && x !in Subs(s, cs, f)
    ensures LevelChildren(s, cs, lvl, f)[x] == s[x]
    decreases f, 1, |cs|
  {
    if cs != [] {
      var c := cs[0];
      var s1 := s[c := s[c].(level := lvl)];
      LevelsKeepShape(s, s1);
      var s2 := if s[c].hasChildren then UpdateChildLevels(s1, c, lvl, f) else s1;
      if s[c].hasChildren {
        ShapeKeepsReach(s, s1, c, f);
        UpdateChildLevelsFrame(s1, c, lvl, f, x);
      }
      LevelsKeepShape(s, s2);
      ShapeKeepsSubs(s, s2, cs[1..], f);
      LevelChildrenFrame(s2, cs[1..], lvl, f, x);
    }
  }

  /**
   * The levels the walk promises: every child of `q` is at `lvl + 1`, and
   * below a flagged child the same holds one generation further down.
   */
  predicate LevelsBelow(r: CatStore, s: CatStore, q: Id, lvl: int, f: Fuel)
    decreases f, 0
  {
    f == Spent || LevelsList(r, s, Listing(s, q), lvl + 1, f.next)
  }

  /** Every child in the list is at `lvl`, and the generations below it are right. */
  predicate LevelsList(r: CatStore, s: CatStore, cs: seq<Id>, lvl: int, f: Fuel)
    requires forall i :: 0 <= i < |cs| ==> cs[i] in s
    decreases f, 1, |cs|
  {
    cs == [] ||
    (cs[0] in r && r[cs[0]].level == lvl
     && (s[cs[0]].hasChildren ==> LevelsBelow(r, s, cs[0], lvl, f))
     && LevelsList(r, s, cs[1..], lvl, f))
  }

  /** The promise, read child by child. */
  lemma {:induction false} LevelsListEach(r: CatStore, s: CatStore, cs: seq<Id>, lvl: int, f: Fuel, i: nat)
    requires forall j :: 0 <= j < |cs| ==> cs[j] in s
    requires LevelsList(r, s, cs, lvl, f) && i < |cs|
    ensures cs[i] in r && r[cs[i]].level == lvl
    ensures s[cs[i]].hasChildren ==> LevelsBelow(r, s, cs[i], lvl, f)
    decreases |cs|
  {
    if i > 0 {
      LevelsListEach(r, s, cs[1..], lvl, f, i - 1);
    }
  }

  /** Every child of `q` sits one level below `q`'s new level. */
  lemma ChildrenAtNextLevel(r: CatStore, s: CatStore, q: Id, lvl: int, f: Fuel, c: Id)
    requires f.More? && LevelsBelow(r, s, q, lvl, f) && c in Children(s, q)
    ensures c in r && r[c].level == lvl + 1
    ensures s[c].hasChildren ==> LevelsBelow(r, s, c, lvl + 1, f.next)
  {
    var i := ListingIndex(s, q, c);
    LevelsListEach(r, s, Listing(s, q), lvl + 1, f.next, i);
  }

  /** The promise only looks at the levels of the nodes the walk reaches. */
  lemma {:induction false} LevelsBelowFrame(a: CatStore, b: CatStore, s: CatStore, q: Id, lvl: int, f: Fuel)
    requires LevelsBelow(a, s, q, lvl, f)
    requires forall x :: x in Reach(s, q, f) ==> x in b && x in a && b[x].level == a[x].level
    ensures LevelsBelow(b, s, q, lvl, f)
    decreases f, 0
  {
    if f.More? {
      LevelsListFrame(a, b, s, Listing(s, q), lvl + 1, f.next);
    }
  }

  lemma {:induction false} LevelsListFrame(a: CatStore, b: CatStore, s: CatStore, cs: seq<Id>, lvl: int, f: Fuel)
    requires forall i :: 0 <= i < |cs| ==> cs[i] in s
    requires LevelsList(a, s, cs, lvl, f)
    requires forall x :: x in Subs(s, cs, f) ==> x in b && x in a && b[x].level == a[x].level
    ensures LevelsList(b, s, cs, lvl, f)
    decreases f, 1, |cs|
  {
    if cs != [] {
      assert Subs(s, cs, f) == Sub(s, cs[0], f) + Subs(s, cs[1..], f);
      if s[cs[0]].hasChildren {
        assert Reach(s, cs[0], f) <= Sub(s, cs[0], f);
        LevelsBelowFrame(a, b, s, cs[0], lvl, f);
      }
      LevelsListFrame(a, b, s, cs[1..], lvl, f);
    }
  }

  /** In a forest, `updateChildLevels` sets every generation it reaches to the right level. */
  lemma {:induction false} UpdateChildLevelsSetsLevels(s0: CatStore, s: CatStore, q: Id, lvl: int, f: Fuel)
    requires SameShape(s0, s) && DisjointSubtrees(s0, q, f)
    ensures LevelsBelow(UpdateChildLevels(s, q, lvl, f), s0, q, lvl, f)
    decreases f, 0, 0
  {
    if f.More? {
      ShapeKeepsReach(s0, s, q, f);
      LevelChildrenSetsLevels(s0, s, Listing(s0, q), lvl + 1, f.next);
    }
  }

  lemma {:induction false} LevelChildrenSetsLevels(s0: CatStore, s: CatStore, cs: seq<Id>, lvl: int, f: Fuel)
    requires forall i :: 0 <= i < |cs| ==> cs[i] in s0
    requires SameShape(s0, s) && DisjointList(s0, cs, f)
    ensures LevelsList(LevelChildren(s, cs, lvl, f), s0, cs, lvl, f)
    decreases f, 1, |cs|
  {
    if cs != [] {
      var c := cs[0];
      var s2 := LevelFirstChild(s0, s, cs, lvl, f);
      LevelChildrenSetsLevels(s0, s2, cs[1..], lvl, f);
      LevelRestKeepsFirst(s0, s2, cs, lvl, f);
    }
  }

  /** The first step of the loop: the first child and the generations below it get their levels. */
  lemma {:induction false} LevelFirstChild(s0: CatStore, s: CatStore, cs: seq<Id>, lvl: int, f: Fuel)
    returns (s2: CatStore)
    requires cs != [] && forall i :: 0 <= i < |cs| ==> cs[i] in s0
    requires SameShape(s0, s) && DisjointList(s0, cs, f)
    ensures SameShape(s0, s2)
    ensures LevelChildren(s, cs, lvl, f) == LevelChildren(s2, cs[1..], lvl, f)
    ensures s2[cs[0]].level == lvl
    ensures s0[cs[0]].hasChildren ==> LevelsBelow(s2, s0, cs[0], lvl, f)
    decreases f, 0, 1
  {
    var c := cs[0];
    var s1 := s[c := s[c].(level := lvl)];
    LevelsKeepShape(s, s1);
    s2 := if s[c].hasChildren then UpdateChildLevels(s1, c, lvl, f) else s1;
    LevelsKeepShape(s, s2);
    if s[c].hasChildren {
      ShapeKeepsReach(s0, s1, c, f);
      UpdateChildLevelsFrame(s1, c, lvl, f, c);
      UpdateChildLevelsSetsLevels(s0, s1, c, lvl, f);
    }
  }

  /** The rest of the loop leaves the first child's subtree, and so its levels, alone. */
  lemma LevelRestKeepsFirst(s0: CatStore, s2: CatStore, cs: seq<Id>, lvl: int, f: Fuel)
    requires cs != [] && forall i :: 0 <= i < |cs| ==> cs[i] in s0
    requires SameShape(s0, s2) && DisjointList(s0, cs, f)
    requires s2[cs[0]].level == lvl
    requires s0[cs[0]].hasChildren ==> LevelsBelow(s2, s0, cs[0], lvl, f)
    requires LevelsList(LevelChildren(s2, cs[1..], lvl, f), s0, cs[1..], lvl, f)
    ensures LevelsList(LevelChildren(s2, cs[1..], lvl, f), s0, cs, lvl, f)
  {
    var c := cs[0];
    var r := LevelChildren(s2, cs[1..], lvl, f);
    ShapeKeepsSubs(s0, s2, cs[1..], f);
    forall x | x in Sub(s0, c, f)
      ensures x in r && r[x] == s2[x]
    {
      LevelChildrenFrame(s2, cs[1..], lvl, f, x);
    }
    if s0[c].hasChildren {
      LevelsBelowFrame(s2, r, s0, c, lvl, f);
    }
  }

  // ---------------------------------------------------------------------
  // The descendant move of deleteCategory
  // ---------------------------------------------------------------------

  /** A category re-parented under "deletedCategories" at level 1. */
  function MovedOf(c: Category): (m: Category)
    ensures m.parentId == Some(DeleteTarget) && m.level == 1
  {
    c.(parentId := Some(DeleteTarget), level := 1)
  }

  predicate IsMoved(c: Category)
  {
    c.parentId == Some(DeleteTarget) && c.level == 1
  }

  /** What a move can do to a category: nothing, or move it. */
  predicate Evolved(a: Category, b: Category)
  {
    b == a || b == MovedOf(a)
  }

  predicate EvolvedStore(s: CatStore, t: CatStore)
  {
    t.Keys == s.Keys && forall x :: x in s ==> Evolved(s[x], t[x])
  }

  lemma EvolvedTrans(s: CatStore, t: CatStore, u: CatStore)
    requires EvolvedStore(s, t) && EvolvedStore(t, u)
    ensures EvolvedStore(s, u)
  {
  }

  /**
   * `moveAllDescendantsToDeletedCategories(q, depth)` with `f = 11 - depth`:
   * a call at a depth above 10 does nothing; otherwise each child found
   * under `q` (at the time of the query) is first descended into, when
   * flagged, and then moved.
   */
  function MoveAll(s: CatStore, q: Id, f: Fuel): (r: CatStore)
    ensures r.Keys == s.Keys
    decreases f, 0, 0
  {
    if f == Spent then s else MoveChildren(s, Listing(s, q), f.next)
  }

  function MoveChildren(s: CatStore, cs: seq<Id>, f: Fuel): (r: CatStore)
    requires forall i :: 0 <= i < |cs| ==> cs[i] in s
    ensures r.Keys == s.Keys
    decreases f, 1, |cs|
  {
    if cs == [] then s
    else
      var c := cs[0];
      var s1 := if s[c].hasChildren then MoveAll(s, c, f) else s;
      MoveChildren(s1[c := MovedOf(s1[c])], cs[1..], f)
  }

  /** The move only ever re-parents categories: each one is left alone or moved. */
  lemma {:induction false} MoveAllEvolves(s: CatStore, q: Id, f: Fuel)
    ensures EvolvedStore(s, MoveAll(s, q, f))
    decreases f, 0, 0
  {
    if f.More? {
      MoveAllUnfold(s, q, f);
      MoveChildrenEvolves(s, Listing(s, q), f.next);
    }
  }

  lemma {:induction false} MoveChildrenEvolves(s: CatStore, cs: seq<Id>, f: Fuel)
    requires forall i :: 0 <= i < |cs| ==> cs[i] in s
    ensures EvolvedStore(s, MoveChildren(s, cs, f))
    decreases f, 1, |cs|
  {
    if cs != [] {
      var c := cs[0];
      var s1 := if s[c].hasChildren then MoveAll(s, c, f) else s;
      if s[c].hasChildren {
        MoveAllEvolves(s, c, f);
      }
      var s2 := s1[c := MovedOf(s1[c])];
      EvolvedTrans(s, s1, s2);
      MoveChildrenUnfold(s, cs, f);
      MoveChildrenEvolves(s2, cs[1..], f);
      EvolvedTrans(s, s2, MoveChildren(s2, cs[1..], f));
    }
  }

  lemma MoveAllUnfold(s: CatStore, q: Id, f: Fuel)
    requires f.More?
    ensures MoveAll(s, q, f) == MoveChildren(s, Listing(s, q), f.next)
  {
  }

  /** A moved category stays moved. */
  lemma MovedStaysMoved(s: CatStore, t: CatStore, x: Id)
    requires EvolvedStore(s, t) && x in s && IsMoved(s[x])
    ensures IsMoved(t[x])
  {
  }

  /** Below a node other than the target, the children found later are among the children found at first. */
  lemma LiveChildren(s0: CatStore, s: CatStore, q: Id)
    requires EvolvedStore(s0, s) && q != DeleteTarget
    ensures Children(s, q) <= Children(s0, q)
  {
  }

  /** The subtrees of a sub-list lie inside the subtrees of the list. */
  lemma {:induction false} SubsMono(s: CatStore, cs: seq<Id>, ds: seq<Id>, f: Fuel)
    requires forall i :: 0 <= i < |ds| ==> ds[i] in s
    requires forall i :: 0 <= i < |cs| ==> cs[i] in ds
    ensures Subs(s, cs, f) <= Subs(s, ds, f)
    decreases |cs|
  {
    if cs != [] {
      assert cs[0] in ds;
      var i :| 0 <= i < |ds| && ds[i] == cs[0];
      SubsHasSub(s, ds, f, i);
      SubsMono(s, cs[1..], ds, f);
    }
  }

  /** The children found later in the walk lie inside the reach computed at first. */
  lemma LiveSubsInReach(s0: CatStore, s: CatStore, q: Id, f: Fuel)
    requires EvolvedStore(s0, s) && q != DeleteTarget && f.More?
    ensures forall i :: 0 <= i < |Listing(s, q)| ==> Listing(s, q)[i] in s0
    ensures Subs(s0, Listing(s, q), f.next) <= Reach(s0, q, f)
  {
    var cs := Listing(s, q);
    var ds := Listing(s0, q);
    LiveChildren(s0, s, q);
    assert forall i :: 0 <= i < |cs| ==> cs[i] in ds;
    SubsMono(s0, cs, ds, f.next);
    ReachUnfold(s0, q, f);
  }

  /** What the move below `q` needs to leave a node `x` alone. */
  predicate ClearBelow(s0: CatStore, s: CatStore, q: Id, f: Fuel, x: Id)
  {
    EvolvedStore(s0, s) && x in s && q != DeleteTarget
    && DeleteTarget !in Reach(s0, q, f) && x !in Reach(s0, q, f)
  }

  /** What the move of a list of children needs to leave a node `x` alone. */
  predicate ClearList(s0: CatStore, s: CatStore, cs: seq<Id>, f: Fuel, x: Id)
  {
    EvolvedStore(s0, s) && x in s && (forall i :: 0 <= i < |cs| ==> cs[i] in s0)
    && DeleteTarget !in Subs(s0, cs, f) && x !in Subs(s0, cs, f)
  }

  /** The move changes nothing outside the reach of the walk, as long as the walk never visits the target. */
  lemma {:induction false} MoveAllFrame(s0: CatStore, s: CatStore, q: Id, f: Fuel, x: Id)
    requires ClearBelow(s0, s, q, f, x)
    ensures MoveAll(s, q, f)[x] == s[x]
    decreases f, 0, 0
  {
    if f.More? {
      LiveSubsInReach(s0, s, q, f);
      MoveAllUnfold(s, q, f);
      MoveChildrenFrame(s0, s, Listing(s, q), f.next, x);
    }
  }

  lemma {:induction false} MoveChildrenFrame(s0: CatStore, s: CatStore, cs: seq<Id>, f: Fuel, x: Id)
    requires ClearList(s0, s, cs, f, x)
    ensures MoveChildren(s, cs, f)[x] == s[x]
    decreases f, 1, |cs|
  {
    if cs != [] {
      var c := cs[0];
      SubsUnfold(s0, cs, f);
      var s1 := if s[c].hasChildren then MoveAll(s, c, f) else s;
      if s[c].hasChildren {
        assert ClearBelow(s0, s, c, f, x);
        MoveAllFrame(s0, s, c, f, x);
        MoveAllEvolves(s, c, f);
      }
      var s2 := s1[c := MovedOf(s1[c])];
      EvolvedTrans(s0, s, s1);
      EvolvedTrans(s0, s1, s2);
      assert ClearList(s0, s2, cs[1..], f, x);
      MoveChildrenUnfold(s, cs, f);
      MoveChildrenFrame(s0, s2, cs[1..], f, x);
    }
  }

  lemma MoveChildrenUnfold(s: CatStore, cs: seq<Id>, f: Fuel)
    requires cs != [] && forall i :: 0 <= i < |cs| ==> cs[i] in s
    ensures var s1 := if s[cs[0]].hasChildren then MoveAll(s, cs[0], f) else s;
      MoveChildren(s, cs, f) == MoveChildren(s1[cs[0] := MovedOf(s1[cs[0]])], cs[1..], f)
  {
  }

  /** Every node of `g` is in `r` and has been moved. */
  predicate AllMoved(r: CatStore, g: set<Id>)
  {
    forall x :: x in g ==> x in r && IsMoved(r[x])
  }

  lemma AllMovedStays(s: CatStore, t: CatStore, g: set<Id>)
    requires EvolvedStore(s, t) && AllMoved(s, g)
    ensures AllMoved(t, g)
  {
  }

  /** The nodes of `g` are as they were at first. */
  predicate Untouched(s0: CatStore, s: CatStore, g: set<Id>)
  {
    forall x :: x in g ==> x in s0 && x in s && s[x] == s0[x]
  }

  /**
   * What the move below `q` needs to move everything it reaches: a forest,
   * a walk that never meets the target, and nothing reached touched yet.
   */
  predicate ReadyBelow(s0: CatStore, s: CatStore, q: Id, f: Fuel)
  {
    EvolvedStore(s0, s) && q != DeleteTarget && DisjointSubtrees(s0, q, f)
    && DeleteTarget !in Reach(s0, q, f) && Untouched(s0, s, Reach(s0, q, f))
  }

  /** The same for the move of a list of children. */
  predicate ReadyList(s0: CatStore, s: CatStore, cs: seq<Id>, f: Fuel)
  {
    (forall i :: 0 <= i < |cs| ==> cs[i] in s0)
    && EvolvedStore(s0, s) && DisjointList(s0, cs, f)
    && DeleteTarget !in Subs(s0, cs, f) && Untouched(s0, s, Subs(s0, cs, f))
  }

  /** While no node below `q` has been touched, the walk finds the children it would have found at first. */
  lemma ListingUnchanged(s0: CatStore, s: CatStore, q: Id, f: Fuel)
    requires EvolvedStore(s0, s) && q != DeleteTarget && f.More?
    requires Untouched(s0, s, Reach(s0, q, f))
    ensures Listing(s, q) == Listing(s0, q)
  {
    LiveChildren(s0, s, q);
    forall c | c in Children(s0, q)
      ensures c in Children(s, q)
    {
      SubInReach(s0, q, c, f);
    }
    assert Children(s, q) == Children(s0, q);
  }

  /** Ready below `q` means ready for the list `cs` of `q`'s children, one generation down. */
  lemma ReadyBelowUnfold(s0: CatStore, s: CatStore, q: Id, f: Fuel, cs: seq<Id>, g: Fuel)
    requires ReadyBelow(s0, s, q, f) && f.More? && g == f.next && cs == Listing(s0, q)
    ensures ReadyList(s0, s, cs, g)
  {
    ReachAsList(s0, q, f, cs, g);
    assert DisjointList(s0, cs, g);
  }

  lemma ReachAsList(s0: CatStore, q: Id, f: Fuel, cs: seq<Id>, g: Fuel)
    requires f.More? && g == f.next && cs == Listing(s0, q)
    ensures Reach(s0, q, f) == Subs(s0, cs, g)
  {
    ReachUnfold(s0, q, f);
  }

  /** The move below `q` is the move of the children found at first. */
  lemma MoveAllAsList(s0: CatStore, s: CatStore, q: Id, f: Fuel, cs: seq<Id>, g: Fuel)
    requires ReadyBelow(s0, s, q, f) && f.More? && g == f.next && cs == Listing(s0, q)
    ensures MoveAll(s, q, f) == MoveChildren(s, cs, g)
  {
    ListingUnchanged(s0, s, q, f);
    MoveAllUnfold(s, q, f);
  }

  /**
   * In a forest whose walk never meets the target, every node the walk
   * reaches ends under "deletedCategories" at level 1.
   */
  lemma {:induction false} MoveAllMoves(s0: CatStore, s: CatStore, q: Id, f: Fuel)
    requires ReadyBelow(s0, s, q, f)
    ensures AllMoved(MoveAll(s, q, f), Reach(s0, q, f))
    decreases f, 0, 0
  {
    if f.More? {
      var cs, g := Listing(s0, q), f.next;
      ReadyBelowUnfold(s0, s, q, f, cs, g);
      MoveChildrenMoves(s0, s, cs, g);
      ReachAsList(s0, q, f, cs, g);
      MoveAllAsList(s0, s, q, f, cs, g);
    }
  }

  lemma {:induction false} MoveChildrenMoves(s0: CatStore, s: CatStore, cs: seq<Id>, f: Fuel)
    requires ReadyList(s0, s, cs, f)
    ensures AllMoved(MoveChildren(s, cs, f), Subs(s0, cs, f))
    decreases f, 1, |cs|
  {
    if cs != [] {
      var s2 := MoveFirstChild(s0, s, cs, f);
      MoveChildrenMoves(s0, s2, cs[1..], f);
      var r := MoveChildren(s2, cs[1..], f);
      MoveChildrenEvolves(s2, cs[1..], f);
      AllMovedStays(s2, r, Sub(s0, cs[0], f));
      SubsUnfold(s0, cs, f);
    }
  }

  /** The first step of the loop: the first child's subtree is moved and the rest is untouched. */
  lemma {:induction false} MoveFirstChild(s0: CatStore, s: CatStore, cs: seq<Id>, f: Fuel) returns (s2: CatStore)
    requires cs != [] && ReadyList(s0, s, cs, f)
    ensures EvolvedStore(s0, s2) && s2.Keys == s.Keys
    ensures MoveChildren(s, cs, f) == MoveChildren(s2, cs[1..], f)
    ensures ReadyList(s0, s2, cs[1..], f)
    ensures AllMoved(s2, Sub(s0, cs[0], f))
    decreases f, 0, 2
  {
    var c := cs[0];
    var s1 := MoveFirstSubtree(s0, s, cs, f);
    s2 := s1[c := MovedOf(s1[c])];
    EvolvedTrans(s0, s1, s2);
    MoveChildrenUnfold(s, cs, f);
    RestUntouched(s0, s, cs, f);
    if s[c].hasChildren {
      AllMovedStays(s1, s2, Reach(s0, c, f));
    }
  }

  /** The descent into a flagged first child moves everything below it. */
  lemma {:induction false} MoveFirstSubtree(s0: CatStore, s: CatStore, cs: seq<Id>, f: Fuel) returns (s1: CatStore)
    requires cs != [] && ReadyList(s0, s, cs, f)
    ensures s1 == if s[cs[0]].hasChildren then MoveAll(s, cs[0], f) else s
    ensures EvolvedStore(s0, s1)
    ensures s[cs[0]].hasChildren ==> AllMoved(s1, Reach(s0, cs[0], f))
    decreases f, 0, 1
  {
    var c := cs[0];
    s1 := if s[c].hasChildren then MoveAll(s, c, f) else s;
    if s[c].hasChildren {
      FirstChildReady(s0, s, cs, f);
      MoveAllMoves(s0, s, c, f);
      MoveAllEvolves(s, c, f);
      EvolvedTrans(s0, s, s1);
    }
  }

  /** A flagged first child is ready for its own walk. */
  lemma FirstChildReady(s0: CatStore, s: CatStore, cs: seq<Id>, f: Fuel)
    requires cs != [] && ReadyList(s0, s, cs, f) && s[cs[0]].hasChildren
    ensures ReadyBelow(s0, s, cs[0], f)
  {
    SubsUnfold(s0, cs, f);
  }

  /** The move of the first child's subtree leaves the later children's subtrees alone. */
  lemma RestUntouched(s0: CatStore, s: CatStore, cs: seq<Id>, f: Fuel)
    requires cs != [] && ReadyList(s0, s, cs, f)
    ensures var c := cs[0];
      var s1 := if s[c].hasChildren then MoveAll(s, c, f) else s;
      Untouched(s0, s1[c := MovedOf(s1[c])], Subs(s0, cs[1..], f))
  {
    var c := cs[0];
    SubsUnfold(s0, cs, f);
    forall x | x in Subs(s0, cs[1..], f)
      ensures (if s[c].hasChildren then MoveAll(s, c, f) else s)[x] == s0[x]
    {
      if s[c].hasChildren {
        assert ClearBelow(s0, s, c, f, x);
        MoveAllFrame(s0, s, c, f, x);
      }
    }
  }
}
