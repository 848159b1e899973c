/**
 * Product tags (models/tagsModel.js, controllers/tagController.js).
 *
 * A tag has a unique trimmed name and a `featured` flag; at most ten tags
 * may be featured. Products refer to tags by name, so renaming or deleting
 * a tag rewrites the tag lists of the products that carry it. The tag list
 * of each product is kept here as its own map, beside the tag store.
 */
module Tags {
  import opened Common
  import Helper

  /** A stored tag; `createdAt` is left out. */
  datatype Tag = Tag(name: string, featured: bool, image: Option<string>)

  type TagStore = map<Id, Tag>

  /** The `tags` array of each product, by product id. */
  type ProductTags = map<Id, seq<string>>

  datatype Shop = Shop(tags: TagStore, products: ProductTags)

  /** The most tags that may be featured at once. */
  const MaxFeatured := 10

  const NameRequired := "Tag name is required"
  const TagExists := "Tag already exists"
  const NameTaken := "Tag with this name already exists"
  const TooManyFeatured := "Maximum 10 tags can be featured at a time"
  const TagMissing := "Tag not found"
  const CastFailed := "Cast to ObjectId failed"
  const NameInvalid := "Tag validation failed: name: Path `name` is required."

  // ---------------------------------------------------------------------
  // Store invariants
  // ---------------------------------------------------------------------

  function FeaturedIds(ts: TagStore): (g: set<Id>)
    ensures forall t :: t in g <==> t in ts && ts[t].featured
  {
    set t | t in ts && ts[t].featured
  }

  /** `countDocuments({ featured: true })`. */
  function FeaturedCount(ts: TagStore): nat
  {
    |FeaturedIds(ts)|
  }

  /** The unique index on `name`. */
  predicate UniqueNames(ts: TagStore)
  {
    forall a, b :: a in ts && b in ts && a != b ==> ts[a].name != ts[b].name
  }

  /** Some tag other than `except` is called `name`. */
  predicate NameUsed(ts: TagStore, name: string, except: Option<Id>)
  {
    exists t :: t in ts && Some(t) != except && ts[t].name == name
  }

  /** `image || null`: an empty image clears it. */
  function ImageOf(image: Option<string>): (r: Option<string>)
    ensures r.Some? <==> image.Some? && image.value != []
    ensures r.Some? ==> r == image
  {
    if image.Some? && image.value == [] then None else image
  }

  // ---------------------------------------------------------------------
  // createTag
  // ---------------------------------------------------------------------

  /**
   * `createTag`. A missing or empty name is refused; the duplicate check is
   * on the trimmed name; a featured tag is refused when ten already are.
   * A name of spaces passes those checks and fails the schema's `required`.
   */
  function CreateTag(ts: TagStore, name: Option<string>, featured: bool, image: Option<string>, newId: Id): (out: Outcome<TagStore, Id>)
    requires newId !in ts
    ensures out.result.Err? ==> out.state == ts
    ensures name.None? || name.value == [] ==> out.result == Err(400, NameRequired)
    ensures out.result.Ok? <==>
      name.Some? && Trim(name.value) != [] && !NameUsed(ts, Trim(name.value), None)
      && (featured ==> FeaturedCount(ts) < MaxFeatured)
    ensures out.result.Ok? ==>
      out.result.value == newId && out.state == ts[newId := Tag(Trim(name.value), featured, ImageOf(image))]
  {
    if name.None? || name.value == [] then Outcome(ts, Err(400, NameRequired))
    else
      var n := Trim(name.value);
      if NameUsed(ts, n, None) then Outcome(ts, Err(400, TagExists))
      else if featured && FeaturedCount(ts) >= MaxFeatured then Outcome(ts, Err(400, TooManyFeatured))
      else if n == [] then Outcome(ts, Err(500, NameInvalid))
      else Outcome(ts[newId := Tag(n, featured, ImageOf(image))], Ok(newId))
  }

  /** Creating keeps the names unique and the featured count within the cap. */
  lemma CreateKeepsInvariants(ts: TagStore, name: Option<string>, featured: bool, image: Option<string>, newId: Id)
    requires newId !in ts && UniqueNames(ts) && FeaturedCount(ts) <= MaxFeatured
    ensures var out := CreateTag(ts, name, featured, image, newId);
      UniqueNames(out.state) && FeaturedCount(out.state) <= MaxFeatured
  {
    var out := CreateTag(ts, name, featured, image, newId);
    if out.result.Ok? {
      var t := out.state;
      if featured {
        assert FeaturedIds(t) == FeaturedIds(ts) + {newId};
      } else {
        assert FeaturedIds(t) == FeaturedIds(ts);
      }
      forall a, b | a in t && b in t && a != b
        ensures t[a].name != t[b].name
      {
        if a == newId {
          assert !(b in ts && Some(b) != None && ts[b].name == Trim(name.value));
        } else if b == newId {
          assert !(a in ts && Some(a) != None && ts[a].name == Trim(name.value));
        }
      }
    }
  }

  /** A name padded with spaces is a duplicate of the trimmed name. */
  lemma PaddedNameIsDuplicate(ts: TagStore, t: Id, newId: Id)
    requires t in ts && newId !in ts && Trimmed(ts[t].name) && ts[t].name != []
    ensures CreateTag(ts, Some(" " + ts[t].name + " "), false, None, newId).result == Err(400, TagExists)
  {
    TrimPadded(" ", ts[t].name, " ");
    assert NameUsed(ts, ts[t].name, None);
  }

  // ---------------------------------------------------------------------
  // Product tag lists
  // ---------------------------------------------------------------------

  /** `tags.filter(tag => tag !== x)`. */
  function Without(s: seq<string>, x: string): (r: seq<string>)
    ensures multiset(r) == multiset(s)[x := 0]
    ensures forall y :: y in r <==> y in s && y != x
  {
    if s == [] then []
    else
      var rest := Without(s[1..], x);
      assert s == [s[0]] + s[1..];
      assert multiset(s) == multiset{s[0]} + multiset(s[1..]);
      if s[0] == x then rest else [s[0]] + rest
  }

  /** The tags of a product carrying `from` once the tag is renamed to `to`. */
  function Renamed(s: seq<string>, from: string, to: string): seq<string>
  {
    Without(s, from) + [to]
  }

  /** `$pull` of `name` from every product, and the rename loop over the products carrying `from`. */
  function PullAll(pt: ProductTags, name: string): (r: ProductTags)
    ensures r.Keys == pt.Keys
    ensures forall p :: p in pt ==> r[p] == Without(pt[p], name)
  {
    map p | p in pt :: Without(pt[p], name)
  }

  function RenameAll(pt: ProductTags, from: string, to: string): (r: ProductTags)
    ensures r.Keys == pt.Keys
    ensures forall p :: p in pt ==> r[p] == if from in pt[p] then Renamed(pt[p], from, to) else pt[p]
  {
    map p | p in pt :: if from in pt[p] then Renamed(pt[p], from, to) else pt[p]
  }

  /**
   * Renaming drops every copy of the old name and adds the new name once
   * more, so a product that already carried the new name carries it twice.
   */
  lemma RenamedCounts(s: seq<string>, from: string, to: string)
    requires from in s
    ensures var r := Renamed(s, from, to);
      (from != to ==> from !in r && multiset(r)[to] == multiset(s)[to] + 1)
      && (from == to ==> multiset(r)[to] == 1)
      && forall y :: y != from && y != to ==> multiset(r)[y] == multiset(s)[y]
  {
    var r := Renamed(s, from, to);
    assert multiset(r) == multiset(Without(s, from)) + multiset{to};
  }

  /** Renaming tag "a" to "b" on a product tagged both gives it "b" twice. */
  lemma RenameDuplicatesTag()
    ensures Renamed(["a", "b"], "a", "b") == ["b", "b"]
  {
    assert Without(["a", "b"], "a") == ["b"] by {
      assert ["a", "b"][1..] == ["b"];
      assert ["b"][1..] == [];
    }
  }

  // ---------------------------------------------------------------------
  // updateTag and deleteTag
  // ---------------------------------------------------------------------

  /** The update payload; `None` is a field left out of the body. */
  datatype TagUpdate = TagUpdate(name: Option<string>, featured: Option<bool>, image: Option<string>)

  function Applied(t: Tag, up: TagUpdate): (w: Tag)
    ensures w.name == if up.name.Some? then Trim(up.name.value) else t.name
    ensures w.featured == up.featured.GetOr(t.featured)
    ensures w.image == if up.image.Some? then ImageOf(up.image) else t.image
  {
    Tag(
      if up.name.Some? then Trim(up.name.value) else t.name,
      up.featured.GetOr(t.featured),
      if up.image.Some? then ImageOf(up.image) else t.image)
  }

  /** The checks of `updateTag`, in order, giving the tag's id. */
  function UpdateChecks(ts: TagStore, idText: string, up: TagUpdate): (r: Result<Id>)
    ensures r.Ok? <==>
      var id := Helper.GetMongoId(Some(idText));
      id.Some? && id.value in ts
      && (up.name.Some? ==> Trim(up.name.value) != [] && !NameUsed(ts, Trim(up.name.value), id))
      && (up.featured == Some(true) && !ts[id.value].featured ==> FeaturedCount(ts) < MaxFeatured)
    ensures r.Ok? ==> Some(r.value) == Helper.GetMongoId(Some(idText))
  {
    var id := Helper.GetMongoId(Some(idText));
    if id.None? then Err(500, CastFailed)
    else if id.value !in ts then Err(404, TagMissing)
    else if up.name.Some? && Trim(up.name.value) == [] then Err(400, NameRequired)
    else if up.name.Some? && NameUsed(ts, Trim(up.name.value), id) then Err(400, NameTaken)
    else if up.featured == Some(true) && !ts[id.value].featured && FeaturedCount(ts) >= MaxFeatured then Err(400, TooManyFeatured)
    else Ok(id.value)
  }

  /**
   * `updateTag`. After the tag is written, every product carrying the old
   * name has it replaced, even when the name did not change.
   */
  function UpdateTag(s: Shop, idText: string, up: TagUpdate): (out: Outcome<Shop, Tag>)
    ensures out.result.Err? ==> out.state == s
    ensures out.result.Ok? <==> UpdateChecks(s.tags, idText, up).Ok?
    ensures out.result.Ok? ==>
      var id := UpdateChecks(s.tags, idText, up).value;
      out.result.value == Applied(s.tags[id], up)
      && out.state == Shop(s.tags[id := out.result.value], RenameAll(s.products, s.tags[id].name, out.result.value.name))
  {
    var c := UpdateChecks(s.tags, idText, up);
    if c.Err? then Outcome(s, Err(c.status, c.message))
    else
      var t := s.tags[c.value];
      var w := Applied(t, up);
      Outcome(Shop(s.tags[c.value := w], RenameAll(s.products, t.name, w.name)), Ok(w))
  }

  /** Updating keeps the names unique and the featured count within the cap. */
  lemma UpdateKeepsInvariants(s: Shop, idText: string, up: TagUpdate)
    requires UniqueNames(s.tags) && FeaturedCount(s.tags) <= MaxFeatured
    ensures var out := UpdateTag(s, idText, up);
      UniqueNames(out.state.tags) && FeaturedCount(out.state.tags) <= MaxFeatured
  {
    var out := UpdateTag(s, idText, up);
    if out.result.Ok? {
      var id := UpdateChecks(s.tags, idText, up).value;
      var ts := s.tags;
      var t := out.state.tags;
      if t[id].featured && !ts[id].featured {
        assert FeaturedIds(t) == FeaturedIds(ts) + {id};
      } else if t[id].featured {
        assert FeaturedIds(t) == FeaturedIds(ts);
      } else {
        assert FeaturedIds(t) == FeaturedIds(ts) - {id};
      }
      forall a, b | a in t && b in t && a != b
        ensures t[a].name != t[b].name
      {
        if a == id && up.name.Some? {
          assert !(b in ts && Some(b) != Some(id) && ts[b].name == Trim(up.name.value));
        } else if b == id && up.name.Some? {
          assert !(a in ts && Some(a) != Some(id) && ts[a].name == Trim(up.name.value));
        }
      }
    }
  }

  /** After a rename, no product carries the old name and each one that did carries the new one. */
  lemma UpdateRenamesEverywhere(s: Shop, idText: string, up: TagUpdate, p: Id)
    requires UpdateTag(s, idText, up).result.Ok? && p in s.products
    ensures var id := UpdateChecks(s.tags, idText, up).value;
      var from := s.tags[id].name;
      var to := UpdateTag(s, idText, up).result.value.name;
      var r := UpdateTag(s, idText, up).state.products[p];
      (from != to ==> from !in r)
      && (from in s.products[p] ==> to in r)
      && (from !in s.products[p] ==> r == s.products[p])
  {
  }

  /** `deleteTag`: the name is pulled from every product, then the tag is removed. */
  function DeleteTag(s: Shop, idText: string): (out: Outcome<Shop, string>)
    ensures out.result.Err? ==> out.state == s
    ensures out.result.Ok? <==> var id := Helper.GetMongoId(Some(idText)); id.Some? && id.value in s.tags
    ensures out.result.Ok? ==>
      var id := Helper.GetMongoId(Some(idText)).value;
      out.result.value == s.tags[id].name
      && out.state == Shop(s.tags - {id}, PullAll(s.products, s.tags[id].name))
  {
    var id := Helper.GetMongoId(Some(idText));
    if id.None? then Outcome(s, Err(500, CastFailed))
    else if id.value !in s.tags then Outcome(s, Err(404, TagMissing))
    else
      var name := s.tags[id.value].name;
      Outcome(Shop(s.tags - {id.value}, PullAll(s.products, name)), Ok(name))
  }

  /** After a delete no product carries the name, and every other tag of every product stays. */
  lemma DeleteRemovesEverywhere(s: Shop, idText: string, p: Id, y: string)
    requires DeleteTag(s, idText).result.Ok? && p in s.products
    ensures var name := DeleteTag(s, idText).result.value;
      var r := DeleteTag(s, idText).state.products[p];
      name !in r && (y != name ==> multiset(r)[y] == multiset(s.products[p])[y])
  {
  }

  // ---------------------------------------------------------------------
  // getAllTags and getFeaturedTags parameters
  // ---------------------------------------------------------------------

  const SortFields: set<string> := {"name", "createdAt", "featured"}

  datatype Listing = Listing(page: int, limit: int, sortField: string, ascending: bool)

  /**
   * The listing parameters of `getAllTags`: the page is raised to at least
   * one, the limit cut to at most fifty, and an unknown sort field falls
   * back to `createdAt`.
   */
  function ListingOf(page: int, limit: int, sortBy: string, sortOrder: string): (l: Listing)
    ensures l.page >= 1 && (page >= 1 ==> l.page == page)
    ensures l.limit <= 50 && (limit <= 50 ==> l.limit == limit) && (l.limit == 50 || l.limit == limit)
    ensures l.sortField in SortFields
    ensures sortBy in SortFields ==> l.sortField == sortBy
    ensures sortBy !in SortFields ==> l.sortField == "createdAt"
    ensures l.ascending <==> Lower(sortOrder) == "asc"
  {
    Listing(
      if page < 1 then 1 else page,
      if limit > 50 then 50 else limit,
      if sortBy in SortFields then sortBy else "createdAt",
      Lower(sortOrder) == "asc")
  }

  /** Upper-case sort orders are accepted, other words sort descending. */
  lemma SortOrderExamples()
    ensures ListingOf(1, 10, "name", "ASC").ascending
    ensures !ListingOf(1, 10, "name", "ascending").ascending
    ensures ListingOf(0, 500, "views", "asc") == Listing(1, 50, "createdAt", true)
  {
    assert Lower("ASC") == "asc";
    assert |Lower("ascending")| != |"asc"|;
    assert Lower("asc") == "asc";
  }
}
