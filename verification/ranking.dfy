/**
 * Display-order sequencing shared by products, categories and videos.
 *
 * A ranked collection is a map from document id to its `displayOrder`; a
 * group is the set of ids that are ranked together (the products of one
 * scope, the siblings of one category, all videos). The store lists a
 * group "sorted by displayOrder"; ties are broken here by id, so the listing
 * is a total order (`Before`). Renumbering walks that listing and gives the
 * i-th document the order i + 1, which is what every "reorder sequentially"
 * helper of the controllers does.
 */
module Ranking {
  import opened Common

  type Orders = map<Id, int>

  /** `x` is listed before `y` when the group is sorted by (displayOrder, id). */
  predicate Before(o: Orders, x: Id, y: Id)
    requires x in o && y in o
  {
    o[x] < o[y] || (o[x] == o[y] && x < y)
  }

  /** A group is dense when its orders are distinct and lie in 1..|group|. */
  predicate Dense(o: Orders, g: set<Id>)
    requires g <= o.Keys
  {
    (forall x :: x in g ==> 1 <= o[x] <= |g|)
    && (forall x, y :: x in g && y in g && o[x] == o[y] ==> x == y)
  }

  predicate Distinct(s: seq<Id>)
  {
    forall i, j :: 0 <= i < j < |s| ==> s[i] != s[j]
  }

  /** `s` lists its elements strictly in the `Before` order. */
  predicate Sorted(o: Orders, s: seq<Id>)
    requires forall i :: 0 <= i < |s| ==> s[i] in o
  {
    forall i, j :: 0 <= i < j < |s| ==> Before(o, s[i], s[j])
  }

  predicate IsFirst(o: Orders, g: set<Id>, m: Id)
    requires g <= o.Keys
  {
    m in g && forall y :: y in g && y != m ==> Before(o, m, y)
  }

  lemma BeforeTransitive(o: Orders, x: Id, y: Id, z: Id)
    requires x in o && y in o && z in o
    requires Before(o, x, y) && Before(o, y, z)
    ensures Before(o, x, z)
  {
  }

  lemma {:induction false} FirstExists(o: Orders, g: set<Id>)
    requires g <= o.Keys && g != {}
    ensures exists m :: IsFirst(o, g, m)
    decreases |g|
  {
    var x :| x in g;
    if g == {x} {
      assert IsFirst(o, g, x);
    } else {
      FirstExists(o, g - {x});
      var m :| IsFirst(o, g - {x}, m);
      if Before(o, x, m) {
        forall y | y in g && y != x
          ensures Before(o, x, y)
        {
          if y != m {
            BeforeTransitive(o, x, m, y);
          }
        }
        assert IsFirst(o, g, x);
      } else {
        assert IsFirst(o, g, m);
      }
    }
  }

  /** The document listed first in the group. */
  function First(o: Orders, g: set<Id>): (m: Id)
    requires g <= o.Keys && g != {}
    ensures IsFirst(o, g, m)
  {
    FirstExists(o, g);
    var m :| IsFirst(o, g, m);
    m
  }

  /** The group as the store lists it: sorted by (displayOrder, id). */
  function Sort(o: Orders, g: set<Id>): (s: seq<Id>)
    requires g <= o.Keys
    ensures |s| == |g|
    ensures forall i :: 0 <= i < |s| ==> s[i] in g
    ensures forall x :: x in g ==> x in s
    ensures Sorted(o, s)
    decreases |g|
  {
    if g == {} then []
    else
      var m := First(o, g);
      var rest := Sort(o, g - {m});
      assert forall i :: 0 <= i < |rest| ==> Before(o, m, rest[i]);
      [m] + rest
  }

  lemma SortedIsDistinct(o: Orders, s: seq<Id>)
    requires forall i :: 0 <= i < |s| ==> s[i] in o
    requires Sorted(o, s)
    ensures Distinct(s)
  {
  }

  /** Write `k, k+1, …` into the listed documents, one after another. */
  function Assign(o: Orders, s: seq<Id>, k: int): (r: Orders)
    requires forall i :: 0 <= i < |s| ==> s[i] in o
    requires Distinct(s)
    ensures r.Keys == o.Keys
    ensures forall i :: 0 <= i < |s| ==> r[s[i]] == k + i
    ensures forall x :: x in o && x !in s ==> r[x] == o[x]
    decreases |s|
  {
    if |s| == 0 then o
    else
      var r := Assign(o[s[0] := k], s[1..], k + 1);
      assert forall i :: 1 <= i < |s| ==> s[i] == s[1..][i - 1];
      r
  }

  /**
   * Renumber a group 1..N in its listed order; documents outside the group
   * keep their orders.
   */
  function Renumber(o: Orders, g: set<Id>): (r: Orders)
    requires g <= o.Keys
    ensures r.Keys == o.Keys
    ensures forall x :: x in o && x !in g ==> r[x] == o[x]
    ensures forall i :: 0 <= i < |Sort(o, g)| ==> r[Sort(o, g)[i]] == i + 1
  {
    var s := Sort(o, g);
    SortedIsDistinct(o, s);
    Assign(o, s, 1)
  }

  /** After renumbering, the group holds each order 1..N once. */
  lemma RenumberDense(o: Orders, g: set<Id>)
    requires g <= o.Keys
    ensures Dense(Renumber(o, g), g)
  {
    var s := Sort(o, g);
    var r := Renumber(o, g);
    forall x | x in g
      ensures 1 <= r[x] <= |g|
    {
      var i :| 0 <= i < |s| && s[i] == x;
    }
    forall x, y | x in g && y in g && r[x] == r[y]
      ensures x == y
    {
      var i :| 0 <= i < |s| && s[i] == x;
      var j :| 0 <= j < |s| && s[j] == y;
    }
  }

  /** Renumbering keeps the relative order of the group. */
  lemma RenumberKeepsOrder(o: Orders, g: set<Id>, x: Id, y: Id)
    requires g <= o.Keys && x in g && y in g
    requires Before(o, x, y)
    ensures Renumber(o, g)[x] < Renumber(o, g)[y]
  {
    var s := Sort(o, g);
    var i :| 0 <= i < |s| && s[i] == x;
    var j :| 0 <= j < |s| && s[j] == y;
    SortedIndexOrder(o, s, i, j);
  }

  lemma SortedIndexOrder(o: Orders, s: seq<Id>, i: int, j: int)
    requires forall k :: 0 <= k < |s| ==> s[k] in o
    requires Sorted(o, s) && 0 <= i < |s| && 0 <= j < |s|
    requires Before(o, s[i], s[j])
    ensures i < j
  {
  }

  /**
   * The check `validateAndFixDisplayOrder` makes: walking the listed group,
   * the i-th document already has order i + 1.
   */
  predicate Sequential(o: Orders, g: set<Id>)
    requires g <= o.Keys
  {
    var s := Sort(o, g);
    forall i :: 0 <= i < |s| ==> o[s[i]] == i + 1
  }

  // ---------------------------------------------------------------------
  // Renumbering facts
  // ---------------------------------------------------------------------

  lemma SortedHeadFirst(o: Orders, s: seq<Id>)
    requires forall i :: 0 <= i < |s| ==> s[i] in o
    requires Sorted(o, s) && |s| > 0
    ensures forall x :: x in s && x != s[0] ==> Before(o, s[0], x)
  {
    forall x | x in s && x != s[0]
      ensures Before(o, s[0], x)
    {
      var i :| 0 <= i < |s| && s[i] == x;
    }
  }

  /** Two strictly sorted listings of the same documents are the same listing. */
  lemma HeadIsMember(b: seq<Id>)
    ensures |b| > 0 ==> b[0] in b
  {
  }

  lemma {:induction false} SortedUnique(o: Orders, a: seq<Id>, b: seq<Id>)
    requires forall i :: 0 <= i < |a| ==> a[i] in o
    requires forall i :: 0 <= i < |b| ==> b[i] in o
    requires Sorted(o, a) && Sorted(o, b)
    requires forall x :: x in a <==> x in b
    ensures a == b
    decreases |a|
  {
    if |a| == 0 {
      HeadIsMember(b);
    } else {
      assert a[0] in b;
      assert |b| > 0 && b[0] in b;
      SortedHeadFirst(o, a);
      SortedHeadFirst(o, b);
      assert a[0] == b[0];
      forall x
        ensures x in a[1..] <==> x in b[1..]
      {
        if x in a[1..] {
          var i :| 1 <= i < |a| && a[i] == x;
          assert Before(o, a[0], a[i]);
          assert x in b;
        }
        if x in b[1..] {
          var j :| 1 <= j < |b| && b[j] == x;
          assert Before(o, b[0], b[j]);
          assert x in a;
        }
      }
      SortedUnique(o, a[1..], b[1..]);
      assert a == [a[0]] + a[1..];
      assert b == [b[0]] + b[1..];
    }
  }

  /** A renumbered group lists in the same order as before. */
  lemma RenumberKeepsListing(o: Orders, g: set<Id>)
    requires g <= o.Keys
    ensures Sort(Renumber(o, g), g) == Sort(o, g)
  {
    var r := Renumber(o, g);
    var s := Sort(o, g);
    assert Sorted(r, s) by {
      forall i, j | 0 <= i < j < |s|
        ensures Before(r, s[i], s[j])
      {
        assert r[s[i]] == i + 1 && r[s[j]] == j + 1;
      }
    }
    SortedUnique(r, Sort(r, g), s);
  }

  /** Writing the orders a group already has changes nothing. */
  lemma AssignSameValues(o: Orders, s: seq<Id>, k: int)
    requires forall i :: 0 <= i < |s| ==> s[i] in o
    requires Distinct(s)
    requires forall i :: 0 <= i < |s| ==> o[s[i]] == k + i
    ensures Assign(o, s, k) == o
  {
    var r := Assign(o, s, k);
    forall x | x in o
      ensures r[x] == o[x]
    {
      if x in s {
        var i :| 0 <= i < |s| && s[i] == x;
      }
    }
  }

  /** A sequential group is left alone by renumbering. */
  lemma RenumberSequential(o: Orders, g: set<Id>)
    requires g <= o.Keys
    requires Sequential(o, g)
    ensures Renumber(o, g) == o
  {
    var s := Sort(o, g);
    SortedIsDistinct(o, s);
    AssignSameValues(o, s, 1);
  }

  /** Renumbering produces a sequential group. */
  lemma RenumberIsSequential(o: Orders, g: set<Id>)
    requires g <= o.Keys
    ensures Sequential(Renumber(o, g), g)
  {
    RenumberKeepsListing(o, g);
  }

  /** Renumbering twice is renumbering once. */
  lemma RenumberIdempotent(o: Orders, g: set<Id>)
    requires g <= o.Keys
    ensures Renumber(Renumber(o, g), g) == Renumber(o, g)
  {
    RenumberIsSequential(o, g);
    RenumberSequential(Renumber(o, g), g);
  }

  /** In a strictly sorted listing of a dense group, the i-th order is at least i + 1. */
  lemma {:induction false} SortedDenseLower(o: Orders, g: set<Id>, s: seq<Id>, i: int)
    requires g <= o.Keys && Dense(o, g)
    requires forall k :: 0 <= k < |s| ==> s[k] in g
    requires Sorted(o, s) && 0 <= i < |s|
    ensures o[s[i]] >= i + 1
  {
    if i > 0 {
      SortedDenseLower(o, g, s, i - 1);
      assert Before(o, s[i - 1], s[i]);
      assert s[i - 1] != s[i];
    }
  }

  /** … and at most |s| - (|s| - 1 - i) when the listing covers the group. */
  lemma {:induction false} SortedDenseUpper(o: Orders, g: set<Id>, s: seq<Id>, i: int)
    requires g <= o.Keys && Dense(o, g)
    requires forall k :: 0 <= k < |s| ==> s[k] in g
    requires |s| == |g|
    requires Sorted(o, s) && 0 <= i < |s|
    ensures o[s[i]] <= i + 1
    decreases |s| - i
  {
    if i < |s| - 1 {
      SortedDenseUpper(o, g, s, i + 1);
      assert Before(o, s[i], s[i + 1]);
      assert s[i] != s[i + 1];
    }
  }

  /** The sequential check of `validateAndFixDisplayOrder` holds exactly for dense groups. */
  lemma SequentialIffDense(o: Orders, g: set<Id>)
    requires g <= o.Keys
    ensures Sequential(o, g) <==> Dense(o, g)
  {
    var s := Sort(o, g);
    if Sequential(o, g) {
      forall x, y | x in g && y in g && o[x] == o[y]
        ensures x == y
      {
        var i :| 0 <= i < |s| && s[i] == x;
        var j :| 0 <= j < |s| && s[j] == y;
      }
      forall x | x in g
        ensures 1 <= o[x] <= |g|
      {
        var i :| 0 <= i < |s| && s[i] == x;
      }
    }
    if Dense(o, g) {
      forall i | 0 <= i < |s|
        ensures o[s[i]] == i + 1
      {
        SortedDenseLower(o, g, s, i);
        SortedDenseUpper(o, g, s, i);
      }
    }
  }

  // ---------------------------------------------------------------------
  // Dense means "exactly the orders 1..N"
  // ---------------------------------------------------------------------

  function Image(o: Orders, g: set<Id>): set<int>
    requires g <= o.Keys
  {
    set x | x in g :: o[x]
  }

  function Interval(lo: int, hi: int): (r: set<int>)
    ensures forall n :: n in r <==> lo <= n <= hi
    decreases hi - lo
  {
    if hi < lo then {} else Interval(lo, hi - 1) + {hi}
  }

  lemma {:induction false} IntervalSize(k: nat)
    ensures |Interval(1, k)| == k
  {
    if k > 0 {
      IntervalSize(k - 1);
      var a := Interval(1, k - 1);
      assert k !in a;
      assert |a + {k}| == |a| + 1;
    }
  }

  lemma {:induction false} InjectiveImageSize(o: Orders, g: set<Id>)
    requires g <= o.Keys
    requires forall x, y :: x in g && y in g && o[x] == o[y] ==> x == y
    ensures |Image(o, g)| == |g|
    decreases |g|
  {
    if g != {} {
      var x :| x in g;
      InjectiveImageSize(o, g - {x});
      assert Image(o, g) == Image(o, g - {x}) + {o[x]};
      assert o[x] !in Image(o, g - {x});
    }
  }

  /** A subset as large as its superset is the superset. */
  lemma SubsetOfSameSize(a: set<int>, b: set<int>)
    requires a <= b && |a| == |b|
    ensures a == b
  {
    assert |b - a| == |b| - |a|;
  }

  /** A dense group takes every order from 1 to N exactly once. */
  lemma DenseImage(o: Orders, g: set<Id>)
    requires g <= o.Keys && Dense(o, g)
    ensures Image(o, g) == Interval(1, |g|)
  {
    InjectiveImageSize(o, g);
    IntervalSize(|g|);
    var a, b := Image(o, g), Interval(1, |g|);
    assert a <= b by {
      forall n | n in a
        ensures n in b
      {
        var x :| x in g && o[x] == n;
      }
    }
    SubsetOfSameSize(a, b);
  }

  // ---------------------------------------------------------------------
  // Shifting and moving inside a group
  // ---------------------------------------------------------------------

  /**
   * Add `delta` to the order of every member of `g` whose order lies in
   * lo..hi (no upper bound when `hi` is None).
   */
  function Shift(o: Orders, g: set<Id>, lo: int, hi: Option<int>, delta: int): (r: Orders)
    requires g <= o.Keys
    ensures r.Keys == o.Keys
    ensures forall x :: x in o ==>
      r[x] == (if x in g && lo <= o[x] && (hi.None? || o[x] <= hi.value) then o[x] + delta else o[x])
  {
    map x | x in o :: if x in g && lo <= o[x] && (hi.None? || o[x] <= hi.value) then o[x] + delta else o[x]
  }

  /**
   * Move member `m` to order `target`, closing the slot it leaves: moving
   * later pulls the members in (prev, target] down by one, moving earlier
   * pushes the members in [target, prev) up by one. This is the move of
   * categories and videos.
   */
  function Move(o: Orders, g: set<Id>, m: Id, target: int): (r: Orders)
    requires g <= o.Keys && m in g
    ensures r.Keys == o.Keys
    ensures r[m] == target
    ensures forall x :: x in o && x !in g ==> r[x] == o[x]
  {
    var prev := o[m];
    var others := g - {m};
    var shifted :=
      if target > prev then Shift(o, others, prev + 1, Some(target), -1)
      else if target < prev then Shift(o, others, target, Some(prev - 1), 1)
      else o;
    shifted[m := target]
  }

  /** Moving a member of a dense group to a position inside 1..N keeps it dense. */
  lemma MoveKeepsDense(o: Orders, g: set<Id>, m: Id, target: int)
    requires g <= o.Keys && m in g && Dense(o, g)
    requires 1 <= target <= |g|
    ensures Dense(Move(o, g, m, target), g)
  {
    var prev := o[m];
    if target > prev {
      MoveLaterKeepsDense(o, g, m, target);
    } else if target < prev {
      MoveEarlierKeepsDense(o, g, m, target);
    } else {
      assert Move(o, g, m, target) == o;
    }
  }

  lemma MoveLaterKeepsDense(o: Orders, g: set<Id>, m: Id, target: int)
    requires g <= o.Keys && m in g && Dense(o, g)
    requires o[m] < target <= |g|
    ensures Dense(Shift(o, g - {m}, o[m] + 1, Some(target), -1)[m := target], g)
  {
    var r := Shift(o, g - {m}, o[m] + 1, Some(target), -1)[m := target];
    forall x | x in g
      ensures 1 <= r[x] <= |g|
    {
      if x != m && o[x] == 1 {
        assert o[x] < o[m];
      }
    }
    forall x, y | x in g && y in g && r[x] == r[y]
      ensures x == y
    {
    }
  }

  lemma MoveEarlierKeepsDense(o: Orders, g: set<Id>, m: Id, target: int)
    requires g <= o.Keys && m in g && Dense(o, g)
    requires 1 <= target < o[m]
    ensures Dense(Shift(o, g - {m}, target, Some(o[m] - 1), 1)[m := target], g)
  {
    var r := Shift(o, g - {m}, target, Some(o[m] - 1), 1)[m := target];
    forall x | x in g
      ensures 1 <= r[x] <= |g|
    {
      if x != m && o[x] == |g| {
        assert o[x] > o[m];
      }
    }
    forall x, y | x in g && y in g && r[x] == r[y]
      ensures x == y
    {
    }
  }

  /** Moving never reorders the other members among themselves. */
  lemma MoveKeepsOthersOrder(o: Orders, g: set<Id>, m: Id, target: int, x: Id, y: Id)
    requires g <= o.Keys && m in g && Dense(o, g)
    requires x in g && y in g && x != m && y != m
    requires o[x] < o[y]
    ensures Move(o, g, m, target)[x] < Move(o, g, m, target)[y]
  {
  }

  /**
   * Inserting a new member at a position inside 1..N+1, after pushing the
   * members at or after that position up by one, keeps the group dense.
   */
  lemma InsertKeepsDense(o: Orders, g: set<Id>, n: Id, target: int)
    requires g <= o.Keys && n !in g && Dense(o, g)
    requires 1 <= target <= |g| + 1
    ensures Dense(Shift(o, g, target, None, 1)[n := target], g + {n})
  {
    assert |g + {n}| == |g| + 1;
    InsertedOrders(o, g, n, target);
  }

  /** After the insertion the old members sit in 1..N+1, off the target, and stay distinct. */
  lemma InsertedOrders(o: Orders, g: set<Id>, n: Id, target: int)
    requires g <= o.Keys && n !in g && Dense(o, g)
    requires 1 <= target <= |g| + 1
    ensures var r := Shift(o, g, target, None, 1)[n := target];
      forall x :: x in g ==> 1 <= r[x] <= |g| + 1 && r[x] != target
    ensures var r := Shift(o, g, target, None, 1)[n := target];
      forall x, y :: x in g && y in g && r[x] == r[y] ==> x == y
  {
    var sh := Shift(o, g, target, None, 1);
    assert forall x :: x in g ==> sh[n := target][x] == sh[x];
  }

  /** Appending a new member after the last position keeps the group dense. */
  lemma AppendKeepsDense(o: Orders, g: set<Id>, n: Id)
    requires g <= o.Keys && n !in g && Dense(o, g)
    ensures Dense(o[n := |g| + 1], g + {n})
  {
    assert Shift(o, g, |g| + 1, None, 1) == o;
    InsertKeepsDense(o, g, n, |g| + 1);
  }

  /**
   * The move a product makes to a later position: the members at or after
   * the target are pushed up and the slot it leaves stays empty. On a dense
   * group with a target inside 1..N, nobody holds the old order afterwards
   * and the member that held N now holds N + 1.
   */
  function PushAndPlace(o: Orders, g: set<Id>, m: Id, target: int): (r: Orders)
    requires g <= o.Keys && m in g
    ensures r.Keys == o.Keys
    ensures r[m] == target
  {
    Shift(o, g - {m}, target, None, 1)[m := target]
  }

  lemma PushLaterLeavesGap(o: Orders, g: set<Id>, m: Id, target: int)
    requires g <= o.Keys && m in g && Dense(o, g)
    requires o[m] < target <= |g|
    ensures forall x :: x in g ==> PushAndPlace(o, g, m, target)[x] != o[m]
    ensures !Dense(PushAndPlace(o, g, m, target), g)
  {
    var r := PushAndPlace(o, g, m, target);
    DenseImage(o, g);
    assert |g| in Image(o, g);
    var top :| top in g && o[top] == |g|;
    assert top != m;
    assert r[top] == |g| + 1;
  }
}
