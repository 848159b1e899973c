/**
 * Blog posts (models/blogModel.js, controllers/blogController.js).
 *
 * A post has a unique slug derived from its title, a status among draft,
 * published and archived, and a `publishedAt` stamp. Only the author, or a
 * caller whose role is exactly "admin", may change or delete a post.
 */
module Blogs {
  import opened Common
  import Helper
  import opened Slugs

  datatype Status = Draft | Published | Archived

  /** The schema's `enum: ['draft', 'published', 'archived']`. */
  function ParseStatus(s: string): (r: Option<Status>)
    ensures r == Some(Draft) <==> s == "draft"
    ensures r == Some(Published) <==> s == "published"
    ensures r == Some(Archived) <==> s == "archived"
  {
    if s == "draft" then Some(Draft)
    else if s == "published" then Some(Published)
    else if s == "archived" then Some(Archived)
    else None
  }

  /** A stored post; tags, categories, images, SEO fields and ordering are left out. */
  datatype Post = Post(
    title: string,
    slug: string,
    content: string,
    excerpt: Option<string>,
    author: Id,
    status: Status,
    publishedAt: Option<int>,
    views: nat)

  type PostStore = map<Id, Post>

  const MaxExcerpt := 300

  /** The only role the edit check lets past the author test. */
  const EditorRole := "admin"

  const ContentRequired := "Title and content are required"
  const AuthorRequired := "Author ID is required"
  const AuthorMissing := "Author not found"
  const TitleTaken := "A blog post with this title already exists"
  const PostMissing := "Blog post not found"
  const UpdateRefused := "You don't have permission to update this blog post"
  const DeleteRefused := "You don't have permission to delete this blog post"
  const ServerError := "Internal Server Error"

  /** The unique index on `slug`. */
  predicate UniqueSlugs(ps: PostStore)
  {
    forall a, b :: a in ps && b in ps && a != b ==> ps[a].slug != ps[b].slug
  }

  /** Some post other than `except` has this slug. */
  predicate SlugUsed(ps: PostStore, slug: string, except: Option<Id>)
  {
    exists p :: p in ps && Some(p) != except && ps[p].slug == slug
  }

  // ---------------------------------------------------------------------
  // createBlog
  // ---------------------------------------------------------------------

  /** The create payload; `None` is a field left out of the body. */
  datatype NewPost = NewPost(title: Option<string>, content: Option<string>, excerpt: Option<string>, status: Option<string>)

  /** The schema validators `Blog.create` runs before the save hook. */
  predicate CreateValid(np: NewPost)
    requires np.title.Some?
  {
    ParseStatus(np.status.GetOr("draft")).Some?
    && Trim(np.title.value) != []
    && Slug(np.title.value) != []
    && (np.excerpt.Some? ==> |np.excerpt.value| <= MaxExcerpt)
  }

  /**
   * `createBlog`. The duplicate check uses the slug of the title as sent;
   * the save hook then regenerates the slug from the trimmed title, and a
   * clash of that slug with the unique index is a 500.
   */
  function CreatePost(ps: PostStore, users: set<Id>, author: Option<Id>, np: NewPost, now: int, newId: Id): (out: Outcome<PostStore, Id>)
    requires newId !in ps
    ensures out.result.Err? ==> out.state == ps
    ensures np.title.None? || np.title.value == [] || np.content.None? || np.content.value == [] ==>
      out.result == Err(400, ContentRequired)
    ensures out.result.Ok? <==>
      np.title.Some? && np.content.Some? && np.content.value != []
      && author.Some? && author.value in users
      && !SlugUsed(ps, Slug(np.title.value), None)
      && CreateValid(np)
      && !SlugUsed(ps, Slug(Trim(np.title.value)), None)
    ensures out.result.Ok? ==>
      var st := ParseStatus(np.status.GetOr("draft")).value;
      out.result.value == newId
      && out.state == ps[newId := Post(Trim(np.title.value), Slug(Trim(np.title.value)), np.content.value, np.excerpt,
                                       author.value, st, if st == Published then Some(now) else None, 0)]
  {
    if np.title.None? || np.title.value == [] || np.content.None? || np.content.value == [] then
      Outcome(ps, Err(400, ContentRequired))
    else if author.None? then Outcome(ps, Err(400, AuthorRequired))
    else if author.value !in users then Outcome(ps, Err(404, AuthorMissing))
    else if SlugUsed(ps, Slug(np.title.value), None) then Outcome(ps, Err(400, TitleTaken))
    else if !CreateValid(np) then Outcome(ps, Err(500, ServerError))
    else
      var title := Trim(np.title.value);
      var slug := Slug(title);
      if SlugUsed(ps, slug, None) then Outcome(ps, Err(500, ServerError))
      else
        var st := ParseStatus(np.status.GetOr("draft")).value;
        var p := Post(title, slug, np.content.value, np.excerpt, author.value, st, if st == Published then Some(now) else None, 0);
        Outcome(ps[newId := p], Ok(newId))
  }

  /** Creating keeps slugs unique, and stamps `publishedAt` exactly for a published post. */
  lemma CreateKeepsUniqueSlugs(ps: PostStore, users: set<Id>, author: Option<Id>, np: NewPost, now: int, newId: Id)
    requires newId !in ps && UniqueSlugs(ps)
    ensures var out := CreatePost(ps, users, author, np, now, newId);
      UniqueSlugs(out.state)
      && (out.result.Ok? ==> (out.state[newId].publishedAt.Some? <==> out.state[newId].status == Published))
  {
    var out := CreatePost(ps, users, author, np, now, newId);
    if out.result.Ok? {
      var t := out.state;
      var slug := Slug(Trim(np.title.value));
      forall a, b | a in t && b in t && a != b
        ensures t[a].slug != t[b].slug
      {
        if a == newId {
          assert !(b in ps && Some(b) != None && ps[b].slug == slug);
        } else if b == newId {
          assert !(a in ps && Some(a) != None && ps[a].slug == slug);
        }
      }
    }
  }

  /** A lower-case word behind one space: trimmed, slugged, and slugged after trimming. */
  lemma PaddedWord(w: string)
    requires LowerWord(w)
    ensures Trim(" " + w) == w && Slug(" " + w) == "-" + w && Slug(w) == w && w != []
  {
    SlugKeepsEdgeHyphen(w);
    TrimSpaceWord(w);
    SlugOfSlug(w);
  }

  lemma TrimSpaceWord(w: string)
    requires LowerWord(w)
    ensures Trim(" " + w) == w
  {
    assert AllSpace(" ") && AllSpace([]);
    assert Trimmed(w);
    TrimPadded(" ", w, []);
    assert " " + w + [] == " " + w;
  }

  /**
   * A title with a leading space passes the duplicate check under the slug
   * "-w" and is then saved under "w": when "w" is taken the reply is a 500
   * rather than the duplicate-title 400.
   */
  lemma PaddedTitleCollidesAtSave(ps: PostStore, users: set<Id>, author: Id, w: string, other: Id, now: int, newId: Id)
    requires newId !in ps && author in users && LowerWord(w)
    requires other in ps && ps[other].slug == w
    requires !SlugUsed(ps, "-" + w, None)
    ensures CreatePost(ps, users, Some(author), NewPost(Some(" " + w), Some("text"), None, None), now, newId).result == Err(500, ServerError)
  {
    var np := NewPost(Some(" " + w), Some("text"), None, None);
    PaddedWord(w);
    assert SlugUsed(ps, w, None) by {
      assert other in ps && Some(other) != None && ps[other].slug == w;
    }
    assert ParseStatus("draft").Some?;
    assert CreateValid(np);
    CollidesAtSave(ps, users, author, np, now, newId);
  }

  /** A title whose raw slug is free but whose trimmed slug is taken gets past the duplicate check and fails at save. */
  lemma CollidesAtSave(ps: PostStore, users: set<Id>, author: Id, np: NewPost, now: int, newId: Id)
    requires newId !in ps && author in users
    requires np.title.Some? && np.title.value != [] && np.content.Some? && np.content.value != []
    requires !SlugUsed(ps, Slug(np.title.value), None) && CreateValid(np)
    requires SlugUsed(ps, Slug(Trim(np.title.value)), None)
    ensures CreatePost(ps, users, Some(author), np, now, newId).result == Err(500, ServerError)
  {
  }

  // ---------------------------------------------------------------------
  // updateBlog and deleteBlog
  // ---------------------------------------------------------------------

  /** `blog.author.toString() !== userId && req.user?.role !== 'admin'` refuses. */
  predicate CanEdit(p: Post, caller: Helper.Caller)
  {
    p.author == caller.id || caller.role == EditorRole
  }

  /**
   * The update payload. The handler writes the request body as it is, so
   * every field of the post can be sent; `None` is a field left out.
   */
  datatype PostUpdate = PostUpdate(
    title: Option<string>,
    content: Option<string>,
    status: Option<string>,
    slug: Option<string>,
    excerpt: Option<string>,
    author: Option<Id>,
    views: Option<nat>,
    publishedAt: Option<int>)

  /** An update that sends only the given title, content and status. */
  function Edit(title: Option<string>, content: Option<string>, status: Option<string>): (up: PostUpdate)
    ensures up.title == title && up.content == content && up.status == status
    ensures up.slug.None? && up.excerpt.None? && up.author.None? && up.views.None? && up.publishedAt.None?
  {
    PostUpdate(title, content, status, None, None, None, None, None)
  }

  /** A non-empty title that differs from the stored one gets a new slug. */
  predicate Retitles(p: Post, up: PostUpdate)
  {
    up.title.Some? && up.title.value != [] && up.title.value != p.title
  }

  /** The update validators (`runValidators: true`) on the fields being set. */
  predicate UpdateValid(p: Post, up: PostUpdate)
  {
    (up.status.Some? ==> ParseStatus(up.status.value).Some?)
    && (up.title.Some? ==> Trim(up.title.value) != [])
    && (up.content.Some? ==> up.content.value != [])
    && (Retitles(p, up) ==> Slug(up.title.value) != [])
    && (up.slug.Some? && !Retitles(p, up) ==> NewSlug(p, up) != [])
    && (up.excerpt.Some? ==> |up.excerpt.value| <= MaxExcerpt)
  }

  /**
   * The slug an update leaves: a retitle computes it from the title and
   * overrides any slug sent; otherwise a slug sent passes the schema's
   * `lowercase` and `trim` setters.
   */
  function NewSlug(p: Post, up: PostUpdate): (slug: string)
    ensures Retitles(p, up) ==> slug == Slug(up.title.value)
    ensures !Retitles(p, up) && up.slug.None? ==> slug == p.slug
    ensures !Retitles(p, up) && up.slug.Some? ==> slug == Lower(Trim(up.slug.value))
  {
    if Retitles(p, up) then Slug(up.title.value)
    else if up.slug.Some? then Lower(Trim(up.slug.value))
    else p.slug
  }

  /** The update sets the slug path, so the unique index on it is consulted. */
  predicate WritesSlug(p: Post, up: PostUpdate)
  {
    Retitles(p, up) || up.slug.Some?
  }

  /**
   * The post as written by `findByIdAndUpdate`. The save hook does not run
   * on this path, so the slug is the one computed from the title as sent,
   * and `publishedAt` is restamped on every move into published.
   */
  function Updated(p: Post, up: PostUpdate, now: int): (q: Post)
    requires UpdateValid(p, up)
    ensures up.author.None? ==> q.author == p.author
    ensures up.author.Some? ==> q.author == up.author.value
    ensures up.views.None? ==> q.views == p.views
    ensures up.views.Some? ==> q.views == up.views.value
    ensures up.excerpt.None? ==> q.excerpt == p.excerpt
    ensures up.excerpt.Some? ==> q.excerpt == up.excerpt && |q.excerpt.value| <= MaxExcerpt
    ensures q.slug == NewSlug(p, up)
    ensures up.status == Some("published") && p.status != Published ==> q.publishedAt == Some(now)
    ensures !(up.status == Some("published") && p.status != Published) ==>
      q.publishedAt == if up.publishedAt.Some? then up.publishedAt else p.publishedAt
    ensures up.status.None? ==> q.status == p.status
    ensures up.status.Some? ==> Some(q.status) == ParseStatus(up.status.value)
  {
    Post(
      if up.title.Some? then Trim(up.title.value) else p.title,
      NewSlug(p, up),
      up.content.GetOr(p.content),
      if up.excerpt.Some? then up.excerpt else p.excerpt,
      up.author.GetOr(p.author),
      if up.status.Some? then ParseStatus(up.status.value).value else p.status,
      if up.status == Some("published") && p.status != Published then Some(now)
      else if up.publishedAt.Some? then up.publishedAt
      else p.publishedAt,
      up.views.GetOr(p.views))
  }

  /** `updateBlog`. */
  function UpdatePost(ps: PostStore, idText: string, caller: Helper.Caller, up: PostUpdate, now: int): (out: Outcome<PostStore, Post>)
    ensures out.result.Err? ==> out.state == ps
    ensures out.result.Ok? <==>
      var id := Helper.GetMongoId(Some(idText));
      id.Some? && id.value in ps && CanEdit(ps[id.value], caller)
      && (Retitles(ps[id.value], up) ==> !SlugUsed(ps, Slug(up.title.value), id))
      && UpdateValid(ps[id.value], up)
      && (WritesSlug(ps[id.value], up) ==> !SlugUsed(ps, NewSlug(ps[id.value], up), id))
    ensures var id := Helper.GetMongoId(Some(idText));
      id.Some? && id.value in ps && CanEdit(ps[id.value], caller) && !Retitles(ps[id.value], up)
      && up.slug.Some? && SlugUsed(ps, NewSlug(ps[id.value], up), id)
      ==> out.result == Err(500, ServerError)
    ensures out.result.Ok? ==>
      var id := Helper.GetMongoId(Some(idText)).value;
      out.result.value == Updated(ps[id], up, now) && out.state == ps[id := out.result.value]
  {
    var id := Helper.GetMongoId(Some(idText));
    if id.None? then Outcome(ps, Err(500, ServerError))
    else if id.value !in ps then Outcome(ps, Err(404, PostMissing))
    else
      var p := ps[id.value];
      if !CanEdit(p, caller) then Outcome(ps, Err(400, UpdateRefused))
      else if Retitles(p, up) && SlugUsed(ps, Slug(up.title.value), id) then Outcome(ps, Err(400, TitleTaken))
      else if !UpdateValid(p, up) then Outcome(ps, Err(500, ServerError))
      else if WritesSlug(p, up) && SlugUsed(ps, NewSlug(p, up), id) then Outcome(ps, Err(500, ServerError))
      else
        var q := Updated(p, up, now);
        Outcome(ps[id.value := q], Ok(q))
  }

  /** Updating keeps slugs unique. */
  lemma UpdateKeepsUniqueSlugs(ps: PostStore, idText: string, caller: Helper.Caller, up: PostUpdate, now: int)
    requires UniqueSlugs(ps)
    ensures UniqueSlugs(UpdatePost(ps, idText, caller, up, now).state)
  {
    var out := UpdatePost(ps, idText, caller, up, now);
    if out.result.Ok? {
      var id := Helper.GetMongoId(Some(idText)).value;
      var t := out.state;
      forall a, b | a in t && b in t && a != b
        ensures t[a].slug != t[b].slug
      {
        if a == id && WritesSlug(ps[id], up) {
          assert !(b in ps && Some(b) != Some(id) && ps[b].slug == NewSlug(ps[id], up));
        } else if b == id && WritesSlug(ps[id], up) {
          assert !(a in ps && Some(a) != Some(id) && ps[a].slug == NewSlug(ps[id], up));
        }
      }
    }
  }

  /**
   * Publishing an archived post again restamps `publishedAt`, although the
   * model's save hook stamps it only when it is not yet set.
   */
  lemma RepublishRestamps(ps: PostStore, idText: string, caller: Helper.Caller, now: int)
    requires Helper.GetMongoId(Some(idText)).Some?
    requires var id := Helper.GetMongoId(Some(idText)).value;
      id in ps && ps[id].author == caller.id && ps[id].status == Archived && ps[id].publishedAt.Some?
    ensures var out := UpdatePost(ps, idText, caller, Edit(None, None, Some("published")), now);
      out.result.Ok? && out.result.value.status == Published && out.result.value.publishedAt == Some(now)
  {
  }

  /**
   * The role constant of the system is "Admin", which the edit check's
   * "admin" never matches: an Admin who is not the author is refused.
   */
  lemma AdminRoleCannotEdit(ps: PostStore, idText: string, caller: Helper.Caller, up: PostUpdate, now: int)
    requires caller.role == Helper.AdminRole
    requires Helper.GetMongoId(Some(idText)).Some?
    requires var id := Helper.GetMongoId(Some(idText)).value; id in ps && ps[id].author != caller.id
    ensures UpdatePost(ps, idText, caller, up, now).result == Err(400, UpdateRefused)
  {
    assert Helper.AdminRole != EditorRole;
  }

  /**
   * Retitling to a title with a leading space stores the slug "-w", where
   * creating the same title stores "w".
   */
  lemma RetitleKeepsEdgeHyphen(p: Post, w: string, now: int)
    requires LowerWord(w) && p.title != " " + w
    ensures var up := Edit(Some(" " + w), None, None);
      UpdateValid(p, up) && Updated(p, up, now).slug == "-" + w
  {
    var up := Edit(Some(" " + w), None, None);
    PaddedWord(w);
    assert Retitles(p, up);
    assert UpdateValid(p, up);
  }

  /** `deleteBlog`: the same edit check, then the post is removed. */
  function DeletePost(ps: PostStore, idText: string, caller: Helper.Caller): (out: Outcome<PostStore, ()>)
    ensures out.result.Err? ==> out.state == ps
    ensures out.result.Ok? <==>
      var id := Helper.GetMongoId(Some(idText)); id.Some? && id.value in ps && CanEdit(ps[id.value], caller)
    ensures out.result.Ok? ==> out.state == ps - {Helper.GetMongoId(Some(idText)).value}
  {
    var id := Helper.GetMongoId(Some(idText));
    if id.None? then Outcome(ps, Err(500, ServerError))
    else if id.value !in ps then Outcome(ps, Err(404, PostMissing))
    else if !CanEdit(ps[id.value], caller) then Outcome(ps, Err(400, DeleteRefused))
    else Outcome(ps - {id.value}, Ok(()))
  }

  // ---------------------------------------------------------------------
  // getBlogBySlug and getBlogBySlugAdmin
  // ---------------------------------------------------------------------

  /**
   * The posts a slug lookup can find: published ones only, unless any
   * status will do. The query value passes the slug path's `lowercase` and
   * `trim` setters before it is compared.
   */
  function Matches(ps: PostStore, slug: string, anyStatus: bool): (g: set<Id>)
    ensures forall p :: p in g <==> p in ps && ps[p].slug == Lower(Trim(slug)) && (anyStatus || ps[p].status == Published)
  {
    var key := Lower(Trim(slug));
    set p | p in ps && ps[p].slug == key && (anyStatus || ps[p].status == Published)
  }

  /** A lookup by slug, which counts one more view of the post it finds. */
  function ViewPost(ps: PostStore, slug: string, anyStatus: bool): (out: Outcome<PostStore, Id>)
    ensures out.result.Err? <==> Matches(ps, slug, anyStatus) == {}
    ensures out.result.Err? ==> out == Outcome(ps, Err(404, PostMissing))
    ensures out.result.Ok? ==>
      var p := out.result.value;
      p in ps && ps[p].slug == Lower(Trim(slug)) && (anyStatus || ps[p].status == Published)
      && out.state == ps[p := ps[p].(views := ps[p].views + 1)]
  {
    var g := Matches(ps, slug, anyStatus);
    if g == {} then Outcome(ps, Err(404, PostMissing))
    else
      var p := Least(g);
      Outcome(ps[p := ps[p].(views := ps[p].views + 1)], Ok(p))
  }

  /**
   * With unique slugs, a lookup under any text that the setters turn into a
   * post's slug finds that post exactly when it is published, and the admin
   * lookup always finds it.
   */
  lemma PublicViewOnlyPublished(ps: PostStore, p: Id, text: string)
    requires UniqueSlugs(ps) && p in ps && Lower(Trim(text)) == ps[p].slug
    ensures ViewPost(ps, text, false).result.Ok? <==> ps[p].status == Published
    ensures ViewPost(ps, text, true).result == Ok(p)
  {
    var g := Matches(ps, text, false);
    if ps[p].status == Published {
      assert p in g;
    } else {
      forall q | q in g
        ensures false
      {
      }
      assert g == {};
    }
    var h := Matches(ps, text, true);
    assert h == {p} by {
      assert p in h;
      forall q | q in h
        ensures q == p
      {
      }
    }
  }
}
